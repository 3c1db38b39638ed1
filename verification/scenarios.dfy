/**
 * Concrete sessions: single entries walked through the decision, the worker's
 * messages and the controller's total, and the bootstrap entries.
 */
module Scenarios {
  import opened Wrappers
  import opened JsText
  import opened Files
  import opened Manifest
  import opened Decision
  import opened Worker

  /** The forced extensions have no upper-case letter. */
  lemma ForcedExtensionIsLower(i: nat)
    requires i < |ForcedExtensions|
    ensures |ForcedExtensions[i]| == 4 && ForcedExtensions[i][0] == '.'
    ensures forall j | 0 <= j < 4 :: LowerChar(ForcedExtensions[i][j]) == ForcedExtensions[i][j]
  {
  }

  /** A name ending in a forced extension, in lower case, is forced. */
  lemma ForcedBySuffix(name: string, i: nat)
    requires i < |ForcedExtensions| && EndsWith(name, ForcedExtensions[i])
    ensures ForcedVerification(name)
  {
    var ext := ForcedExtensions[i];
    ForcedExtensionIsLower(i);
    var low := Lower(name);
    assert low[|low| - |ext|..] == ext by {
      forall j | 0 <= j < |ext|
        ensures low[|low| - |ext| + j] == ext[j]
      {
        assert name[|name| - |ext| + j] == ext[j];
      }
    }
  }

  /** The four-character form of `ForcedBySuffix`, which is how every forced extension is spelled. */
  lemma ForcedByLastFour(name: string, i: nat)
    requires i < |ForcedExtensions| && |name| >= 4 && name[|name| - 4..] == ForcedExtensions[i]
    ensures ForcedVerification(name)
  {
    ForcedBySuffix(name, i);
  }

  /** `ForcedByLastFour` with the suffix compared character by character. */
  lemma ForcedByLastChars(name: string, i: nat)
    requires i < |ForcedExtensions| && |name| >= 4
    requires var e := ForcedExtensions[i];
      && |e| == 4
      && name[|name| - 4] == e[0] && name[|name| - 3] == e[1]
      && name[|name| - 2] == e[2] && name[|name| - 1] == e[3]
    ensures ForcedVerification(name)
  {
    var e := ForcedExtensions[i];
    assert name[|name| - 4..] == e by {
      forall k | 0 <= k < 4
        ensures name[|name| - 4..][k] == e[k]
      {
      }
    }
    ForcedByLastFour(name, i);
  }

  /** No forced extension starts with ".t", so a name whose last four characters do is not forced. */
  lemma NotForcedByLetterT(name: string)
    requires |name| >= 4 && name[|name| - 3] == 't'
    ensures !ForcedVerification(name)
  {
    var low := Lower(name);
    forall i | 0 <= i < |ForcedExtensions|
      ensures !EndsWith(low, ForcedExtensions[i])
    {
      ForcedExtensionIsLower(i);
      if EndsWith(low, ForcedExtensions[i]) {
        assert false;
      }
    }
  }

  /** Every bootstrap file has a forced-verification extension. */
  lemma BootstrapEntriesAreForced(i: nat)
    requires i < |BootstrapEntries|
    ensures ForcedVerification(BootstrapEntries[i].name)
  {
    var n := BootstrapEntries[i].name;
    ForcedByLastChars(n, if i < 6 then 0 else i - 5);
  }

  /** A forced-verification entry with size 0 and MD5 0 is fetched when missing and otherwise left alone. */
  lemma UncheckedForcedEntry(x: Entry, fs: Snapshot, swgPath: string, emuPath: string, fullScan: bool)
    requires ForcedVerification(x.name) && x.size == 0 && x.md5 == NumberZero
    ensures var p := Decide(x, fs, swgPath, emuPath, fullScan);
      && (Target(x, emuPath) !in fs ==> p == Plan(false, false, Fetch(x, emuPath)))
      && (Target(x, emuPath) in fs ==> p == Plan(true, false, Skip))
  {
  }

  /**
   * A bootstrap file is downloaded when it is not installed and left alone when
   * it is, whatever its content, size or scan mode: it is never copied.
   */
  lemma BootstrapFetchedOnlyWhenMissing(i: nat, fs: Snapshot, swgPath: string, emuPath: string, fullScan: bool)
    requires i < |BootstrapEntries|
    ensures var x := BootstrapEntries[i];
            var p := Decide(x, fs, swgPath, emuPath, fullScan);
      && (Target(x, emuPath) !in fs ==> p == Plan(false, false, Fetch(x, emuPath)))
      && (Target(x, emuPath) in fs ==> p == Plan(true, false, Skip))
  {
    var x := BootstrapEntries[i];
    BootstrapEntriesAreForced(i);
    assert x.size == 0 && x.md5 == NumberZero;
    UncheckedForcedEntry(x, fs, swgPath, emuPath, fullScan);
  }

  const TextEntry := Entry("a.txt", 100, Digest("abc"), "http://example/a.txt")

  /** A missing plain file is downloaded; once streamed, its credits come to its size. */
  lemma MissingFileIsDownloaded(fs: Snapshot, chunks: seq<nat>)
    requires Target(TextEntry, "emu") !in fs && Path("swg", "a.txt") !in fs
    ensures var p := Decide(TextEntry, fs, "swg", "emu", false);
      && p == Plan(false, false, Download("http://example/a.txt", Path("emu", "a.txt"), false))
      && Credits(RunUnit(TextEntry, p, UnitIo([], chunks, None, Extracted))) == 100
  {
    var p := Decide(TextEntry, fs, "swg", "emu", false);
    assert !IsZip("a.txt") by {
      assert "a.txt"[1..] != ".zip";
    }
    UnitAccounting(TextEntry, p, UnitIo([], chunks, None, Extracted));
  }

  /** An installed plain file of the right size is "copied" onto itself: one credit of its size, nothing streamed. */
  lemma InstalledFileCreditsAtOnce(fs: Snapshot, io: UnitIo)
    requires Target(TextEntry, "emu") in fs && fs[Target(TextEntry, "emu")].size == 100
    ensures var p := Decide(TextEntry, fs, "swg", "emu", false);
      && p == Plan(false, false, Copy(Path("emu", "a.txt"), Path("emu", "a.txt")))
      && RunUnit(TextEntry, p, io) == [Text("complete: " + TextEntry.name), Complete(100)]
  {
    NotForcedByLetterT("a.txt");
    assert !IsZip("a.txt") by {
      assert "a.txt"[1..] != ".zip";
    }
  }

  /**
   * On a full scan the same installed file is hashed before it is "copied"
   * onto itself: the hash progress credits its size, so the closing
   * `{complete}` carries nothing.
   */
  lemma InstalledFileFullScanHashes(chunks: seq<nat>, err: Option<string>, x: Extraction)
    ensures var fs := map[Path("emu", "a.txt") := FileStat(100, "abc")];
            var p := Decide(TextEntry, fs, "swg", "emu", true);
      && p == Plan(true, false, Copy(Path("emu", "a.txt"), Path("emu", "a.txt")))
      && RunUnit(TextEntry, p, UnitIo([100], chunks, err, x))
         == [Progress(100), Text("complete: " + TextEntry.name), Complete(0)]
  {
    NotForcedByLetterT("a.txt");
    AbcIsVerified();
    assert !IsZip("a.txt") by {
      assert "a.txt"[1..] != ".zip";
    }
    var before := [Progress(100)];
    assert before[1..] == [];
    assert ProgressEvents([100]) == before;
    assert Credits(before) == 100;
  }

  /** An archive weighs twice its size, and a successful download and extraction credits exactly that. */
  lemma ArchiveCreditsTwice(chunks: seq<nat>)
    ensures var e := Entry("bundle.zip", 1000, Digest("abc"), "http://example/bundle.zip");
      var p := Decide(e, map[], "swg", "emu", false);
      && p.action == Download("http://example/bundle.zip", Path("emu", "bundle.zip"), true)
      && Credits(RunUnit(e, p, UnitIo([], chunks, None, Extracted))) == 2000
  {
    var e := Entry("bundle.zip", 1000, Digest("abc"), "http://example/bundle.zip");
    assert IsZip(e.name) by {
      assert e.name[|e.name| - 4..] == ".zip";
    }
    UnitAccounting(e, Decide(e, map[], "swg", "emu", false), UnitIo([], chunks, None, Extracted));
  }

  const StaleAsi := Entry("mss32.asi", 100, Digest("abc"), "u")

  /** The digest "abc" is not read as the sentinel, and is expected as written. */
  lemma AbcIsVerified()
    ensures !Unverified(Digest("abc")) && ExpectedDigest(Digest("abc")) == "abc"
  {
    LetterStartNotZero("abc");
    assert Lower("abc") == "abc" by {
      assert Lower("abc"[1..][1..][1..]) == [];
    }
  }

  /** An installed forced file whose size fits but whose digest does not is hashed and downloaded again. */
  lemma ForcedStaleIsRefetched(e: Entry, fs: Snapshot, swgPath: string, emuPath: string, fullScan: bool)
    ensures var dst := Target(e, emuPath);
      ForcedVerification(e.name) && dst in fs && !SizeMismatch(e, fs[dst]) && Stale(e, fs[dst]) ==>
        Decide(e, fs, swgPath, emuPath, fullScan) == Plan(true, false, Fetch(e, emuPath))
  {
  }

  /** "mss32.asi" is verified on every run and is not an archive. */
  lemma StaleAsiIsForced()
    ensures ForcedVerification(StaleAsi.name) && !IsZip(StaleAsi.name)
  {
    ForcedByLastChars(StaleAsi.name, 6);
    assert StaleAsi.name[|StaleAsi.name| - 4..][1] == 'a';
  }

  /** An installed copy with digest "def" is stale against the digest "abc". */
  lemma StaleAsiIsStale()
    ensures Stale(StaleAsi, FileStat(100, "def"))
  {
    AbcIsVerified();
  }

  /** The stale, installed forced file is hashed and downloaded again, without a retraction. */
  lemma StaleAsiIsRefetched()
    ensures Decide(StaleAsi, map[Path("emu", "mss32.asi") := FileStat(100, "def")], "swg", "emu", false)
      == Plan(true, false, Download("u", Path("emu", "mss32.asi"), false))
  {
    var fs := map[Path("emu", "mss32.asi") := FileStat(100, "def")];
    StaleAsiIsForced();
    StaleAsiIsStale();
    assert Target(StaleAsi, "emu") == Path("emu", "mss32.asi");
    ForcedStaleIsRefetched(StaleAsi, fs, "swg", "emu", false);
  }

  /** Hashing and then downloading the file credits its bytes twice before the true-up. */
  lemma HashThenFetchCredits()
    ensures var ms := RunUnit(StaleAsi, Plan(true, false, Download("u", Path("emu", "mss32.asi"), false)),
                              UnitIo([100], [100], None, Extracted));
      Credits(ms[..|ms| - 1]) == 200
  {
    var e := StaleAsi;
    var p := Plan(true, false, Download("u", Path("emu", "mss32.asi"), false));
    var io := UnitIo([100], [100], None, Extracted);
    var before := [Progress(100)];
    assert before[1..] == [];
    assert Credits(before) == 100;
    var t := Transfer(e, p.action, io, 100);
    assert t == [Progress(100)] + Settle(e, None, 200);
    var ms := RunUnit(e, p, io);
    assert ms == before + t;
    var head := ms[..|ms| - 1];
    assert head == [Progress(100), Progress(100), Text("complete: " + e.name)];
    assert head[1..][1..][1..] == [];
    assert Credits(head[1..][1..]) == 0;
  }

  /**
   * Without a retraction, an installed forced-verification file that is stale
   * is credited for its MD5 read and again for its download: before the
   * true-up the unit has credited more than its weight.
   */
  lemma StaleForcedFileOvercredits()
    ensures var fs := map[Path("emu", "mss32.asi") := FileStat(100, "def")];
      var ms := RunUnit(StaleAsi, Decide(StaleAsi, fs, "swg", "emu", false), UnitIo([100], [100], None, Extracted));
      Credits(ms[..|ms| - 1]) > Weight(StaleAsi)
  {
    StaleAsiIsRefetched();
    HashThenFetchCredits();
    assert !IsZip(StaleAsi.name) by {
      assert StaleAsi.name[|StaleAsi.name| - 4..][1] == 'a';
    }
  }
}
