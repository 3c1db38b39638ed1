/**
 * The worker's per-file decision: given one manifest entry and the files
 * present, whether the entry is already good, can be copied from the source
 * installation, or must be downloaded (and, for an archive, unpacked).
 */
module Decision {
  import opened JsText
  import opened Files
  import opened Manifest

  /** Extensions whose files are never trusted to a plain copy. */
  const ForcedExtensions: seq<string> := [".cfg", ".iff", ".dat", ".exe", ".m3d", ".flt", ".asi", ".dll"]

  /** The lower-cased name ends in one of the forced-verification extensions. */
  predicate ForcedVerification(name: string) {
    exists i :: 0 <= i < |ForcedExtensions| && EndsWith(Lower(name), ForcedExtensions[i])
  }

  /** `String(md5).toLowerCase()`: the digest a file must have. */
  function ExpectedDigest(m: Md5Field): string {
    match m
    case NumberZero => "0"
    case Digest(t) => Lower(t)
  }

  /**
   * The source's test `md5 != 0` fails: JavaScript compares loosely, so a
   * string counts as zero when it reads as the number zero.
   */
  predicate JsMd5IsZero(m: Md5Field) {
    match m
    case NumberZero => true
    case Digest(t) => LooselyEqualsZero(t)
  }

  /**
   * The MD5 sentinel: the entry's content is not verified. As in the source,
   * except that a well-formed 32-digit hexadecimal digest is never a sentinel.
   */
  predicate Unverified(m: Md5Field) {
    JsMd5IsZero(m) && !(m.Digest? && IsHexDigest(m.text))
  }

  /** How the cascade reads the source's `md5 != 0` test. */
  datatype SentinelRule =
    | Loose   // as written: JavaScript's loose comparison with the number 0
    | Strict  // corrected: a well-formed digest is never the sentinel

  predicate IsSentinel(rule: SentinelRule, m: Md5Field) {
    match rule
    case Loose => JsMd5IsZero(m)
    case Strict => Unverified(m)
  }

  /** The file's digest differs from the entry's, and the entry asks for verification. */
  predicate StaleUnder(rule: SentinelRule, e: Entry, f: FileStat) {
    f.digest != ExpectedDigest(e.md5) && !IsSentinel(rule, e.md5)
  }

  /** Staleness under the corrected sentinel, which the rest of the model uses. */
  predicate Stale(e: Entry, f: FileStat) {
    StaleUnder(Strict, e, f)
  }

  /** The file's size contradicts the entry's; size 0 means no constraint. */
  predicate SizeMismatch(e: Entry, f: FileStat) {
    f.size != e.size && e.size != 0
  }

  /** What the worker does with a unit after deciding. */
  datatype Action =
    | Skip                                         // `complete()` with no transfer
    | Copy(from: Path, to: Path)                   // `copyFile(src, dst, …)`
    | Download(url: string, to: Path, unzip: bool) // `download(url, dst, …)`, then `unzip` for archives

  /**
   * The decision: whether the inspected file's MD5 was read (which reports its
   * bytes as progress), whether the entry's size was then taken back with
   * `progress(-size)`, and the action.
   */
  datatype Plan = Plan(hashed: bool, retract: bool, action: Action)

  /** Where the entry is installed. */
  function Target(e: Entry, emuPath: string): Path {
    Path(emuPath, e.name)
  }

  /** The file inspected: the installed copy when there is one, else the source copy. */
  function Inspected(e: Entry, fs: Snapshot, swgPath: string, emuPath: string): Path {
    if Target(e, emuPath) in fs then Target(e, emuPath) else Path(swgPath, e.name)
  }

  function Fetch(e: Entry, emuPath: string): Action {
    Download(e.url, Target(e, emuPath), IsZip(e.name))
  }

  /** The worker's `message` handler up to the choice of transfer, under either sentinel rule. */
  function Cascade(rule: SentinelRule, e: Entry, fs: Snapshot, swgPath: string, emuPath: string, fullScan: bool): Plan {
    var dst := Target(e, emuPath);
    var src := Inspected(e, fs, swgPath, emuPath);
    if src !in fs then Plan(false, false, Fetch(e, emuPath))
    else if SizeMismatch(e, fs[src]) then Plan(false, false, Fetch(e, emuPath))
    else if ForcedVerification(e.name) then
      if dst !in fs then Plan(false, false, Fetch(e, emuPath))
      else if StaleUnder(rule, e, fs[dst]) then Plan(true, false, Fetch(e, emuPath))
      else Plan(true, false, Skip)
    else if fullScan then
      if StaleUnder(rule, e, fs[src]) then Plan(true, true, Fetch(e, emuPath))
      else Plan(true, false, Copy(src, dst))
    else Plan(false, false, Copy(src, dst))
  }

  /** The decision with the corrected sentinel. */
  function Decide(e: Entry, fs: Snapshot, swgPath: string, emuPath: string, fullScan: bool): (p: Plan)
    ensures var src := Inspected(e, fs, swgPath, emuPath);
      src !in fs || SizeMismatch(e, fs[src]) ==> p == Plan(false, false, Fetch(e, emuPath))
    ensures p.action.Download? ==> p.action == Fetch(e, emuPath)
    ensures p.action.Copy? ==>
      p.action.from == Inspected(e, fs, swgPath, emuPath) && p.action.to == Target(e, emuPath)
    ensures ForcedVerification(e.name) ==> !p.action.Copy? && !p.retract
    ensures p.retract ==> p.hashed && p.action.Download?
  {
    Cascade(Strict, e, fs, swgPath, emuPath, fullScan)
  }

  /**
   * The decision as the source writes it. It agrees with `Decide` on every
   * entry whose MD5 field is not a well-formed digest reading as zero.
   */
  function DecideAsWritten(e: Entry, fs: Snapshot, swgPath: string, emuPath: string, fullScan: bool): (p: Plan)
    ensures !(e.md5.Digest? && IsHexDigest(e.md5.text) && JsMd5IsZero(e.md5)) ==>
      p == Decide(e, fs, swgPath, emuPath, fullScan)
  {
    Cascade(Loose, e, fs, swgPath, emuPath, fullScan)
  }

  /**
   * The cascade downloads exactly when one of its download conditions holds,
   * read as a flat disjunction: the order of the checks only decides which
   * reason is logged.
   */
  lemma DecideDownloadsIff(e: Entry, fs: Snapshot, swgPath: string, emuPath: string, fullScan: bool)
    ensures var src := Inspected(e, fs, swgPath, emuPath);
            var dst := Target(e, emuPath);
      Decide(e, fs, swgPath, emuPath, fullScan).action.Download? <==>
        || src !in fs
        || SizeMismatch(e, fs[src])
        || (ForcedVerification(e.name) && (dst !in fs || Stale(e, fs[dst])))
        || (!ForcedVerification(e.name) && fullScan && Stale(e, fs[src]))
  {
  }

  /** A unit completes without transfer exactly for a present, intact forced-verification file. */
  lemma DecideSkipsIff(e: Entry, fs: Snapshot, swgPath: string, emuPath: string, fullScan: bool)
    ensures var dst := Target(e, emuPath);
      Decide(e, fs, swgPath, emuPath, fullScan).action.Skip? <==>
        && ForcedVerification(e.name)
        && dst in fs
        && !SizeMismatch(e, fs[dst])
        && !Stale(e, fs[dst])
  {
  }

  /**
   * A unit is copied exactly when the inspected file exists with an acceptable
   * size, the extension is not forced, and no full scan found it stale.
   */
  lemma DecideCopiesIff(e: Entry, fs: Snapshot, swgPath: string, emuPath: string, fullScan: bool)
    ensures var src := Inspected(e, fs, swgPath, emuPath);
      Decide(e, fs, swgPath, emuPath, fullScan).action.Copy? <==>
        && src in fs
        && !SizeMismatch(e, fs[src])
        && !ForcedVerification(e.name)
        && !(fullScan && Stale(e, fs[src]))
  {
  }

  /**
   * The MD5 is read only after the stat and size checks pass, and then only for
   * an installed forced-verification file or on a full scan.
   */
  lemma DecideHashesIff(e: Entry, fs: Snapshot, swgPath: string, emuPath: string, fullScan: bool)
    ensures var src := Inspected(e, fs, swgPath, emuPath);
      Decide(e, fs, swgPath, emuPath, fullScan).hashed <==>
        && src in fs
        && !SizeMismatch(e, fs[src])
        && (if ForcedVerification(e.name) then Target(e, emuPath) in fs else fullScan)
  {
  }

  /**
   * The entry's size is taken back from progress exactly when a full scan
   * finds a file of an unforced extension stale.
   */
  lemma DecideRetractsIff(e: Entry, fs: Snapshot, swgPath: string, emuPath: string, fullScan: bool)
    ensures var src := Inspected(e, fs, swgPath, emuPath);
      Decide(e, fs, swgPath, emuPath, fullScan).retract <==>
        && src in fs
        && !SizeMismatch(e, fs[src])
        && !ForcedVerification(e.name)
        && fullScan && Stale(e, fs[src])
  {
  }

  /** An installed forced-verification file with the MD5 sentinel is never downloaded while its size fits. */
  lemma SentinelNeverDownloads(e: Entry, fs: Snapshot, swgPath: string, emuPath: string, fullScan: bool)
    requires ForcedVerification(e.name) && Unverified(e.md5)
    requires Target(e, emuPath) in fs && !SizeMismatch(e, fs[Target(e, emuPath)])
    ensures Decide(e, fs, swgPath, emuPath, fullScan) == Plan(true, false, Skip)
  {
  }

  /**
   * An installed file that matches its entry needs no transfer: it completes
   * at once, or is "copied" onto itself.
   */
  lemma ReconciledNeedsNoTransfer(e: Entry, fs: Snapshot, swgPath: string, emuPath: string, fullScan: bool)
    requires Target(e, emuPath) in fs
    requires !SizeMismatch(e, fs[Target(e, emuPath)]) && !Stale(e, fs[Target(e, emuPath)])
    ensures var a := Decide(e, fs, swgPath, emuPath, fullScan).action;
      a.Skip? || (a.Copy? && a.from == a.to)
  {
  }

  /** A copy is a self-copy exactly when the file is installed or both trees are one. */
  lemma CopyIsSelfIff(e: Entry, fs: Snapshot, swgPath: string, emuPath: string, fullScan: bool)
    requires Decide(e, fs, swgPath, emuPath, fullScan).action.Copy?
    ensures var a := Decide(e, fs, swgPath, emuPath, fullScan).action;
      a.from == a.to <==> Target(e, emuPath) in fs || swgPath == emuPath
  {
  }

  /** With a genuine digest, an installed forced-verification file whose digest differs is downloaded again. */
  lemma GenuineDigestIsVerified(e: Entry, fs: Snapshot, swgPath: string, emuPath: string, fullScan: bool)
    requires e.md5.Digest? && IsHexDigest(e.md5.text)
    requires ForcedVerification(e.name)
    requires Target(e, emuPath) in fs && !SizeMismatch(e, fs[Target(e, emuPath)])
    requires fs[Target(e, emuPath)].digest != Lower(e.md5.text)
    ensures Decide(e, fs, swgPath, emuPath, fullScan) == Plan(true, false, Fetch(e, emuPath))
  {
  }

  /** The corrected sentinel differs from the source's test only on well-formed digests. */
  lemma UnverifiedAgreesOffDigests(m: Md5Field)
    requires !(m.Digest? && IsHexDigest(m.text))
    ensures Unverified(m) <==> JsMd5IsZero(m)
  {
  }

  const MagicDigest: string := "0e462097431906509019562988736854"

  lemma MagicDigitsLow()
    ensures forall i | 2 <= i < 12 :: IsDecimalDigit(MagicDigest[i])
  {
  }

  lemma MagicDigitsMiddle()
    ensures forall i | 12 <= i < 22 :: IsDecimalDigit(MagicDigest[i])
  {
  }

  lemma MagicDigitsHigh()
    ensures forall i | 22 <= i < 32 :: IsDecimalDigit(MagicDigest[i])
  {
  }

  lemma MagicDigestExponent()
    ensures OptionalExponent(MagicDigest[1..])
  {
    MagicDigitsLow();
    MagicDigitsMiddle();
    MagicDigitsHigh();
    var t := MagicDigest[1..];
    assert t[0] == 'e' && t[1] == '4';
    assert DecimalDigits(t[1..]) by {
      forall j | 0 <= j < |t[1..]|
        ensures IsDecimalDigit(t[1..][j])
      {
        assert t[1..][j] == MagicDigest[j + 2];
      }
    }
  }

  lemma MagicDigestReadsAsZero()
    ensures ZeroUnsignedDecimal(MagicDigest)
  {
    assert ExponentStart(MagicDigest) == 1 by {
      assert MagicDigest[0] == '0';
      assert MagicDigest[1..][0] == 'e';
    }
    var m := MagicDigest[..1];
    assert |m| == 1 && m[0] == '0';
    assert PointAt(m) == 1 by {
      assert PointAt(m[1..]) == 0;
    }
    assert DecimalMantissa(m) && AllZeros(MantissaDigits(m));
    MagicDigestExponent();
  }

  lemma MagicDigestIsHex()
    ensures IsHexDigest(MagicDigest)
  {
    MagicDigitsLow();
    MagicDigitsMiddle();
    MagicDigitsHigh();
    assert MagicDigest[0] == '0' && MagicDigest[1] == 'e';
  }

  lemma MagicDigestTrimmed()
    ensures TrimEnd(TrimStart(MagicDigest)) == MagicDigest
  {
    assert TrimStart(MagicDigest) == MagicDigest;
    assert TrimEnd(MagicDigest) == MagicDigest;
  }

  /**
   * As written, the source's `md5 != 0` treats a genuine digest as the
   * sentinel: "0e" followed by decimal digits reads as the number 0 times a
   * power of ten. This one is the MD5 of the text "240610708".
   */
  lemma MagicDigestCountsAsZero()
    ensures IsHexDigest(MagicDigest)
    ensures JsMd5IsZero(Digest(MagicDigest))
    ensures !Unverified(Digest(MagicDigest))
  {
    MagicDigestTrimmed();
    MagicDigestReadsAsZero();
    MagicDigestIsHex();
    assert MagicDigest[0] == '0';
    UnsignedZeroIsLooseZero(MagicDigest);
  }

  /**
   * An MD5 field that is the sentinel as written but not once corrected: an
   * installed file that fits but differs is kept (forced) or copied (full
   * scan) as written, and downloaded once corrected.
   */
  lemma LooseSentinelKeeps(e: Entry, fs: Snapshot, swgPath: string, emuPath: string, fullScan: bool)
    requires IsSentinel(Loose, e.md5) && !IsSentinel(Strict, e.md5)
    ensures var dst := Target(e, emuPath);
      dst in fs && !SizeMismatch(e, fs[dst]) && fs[dst].digest != ExpectedDigest(e.md5) ==>
        && (ForcedVerification(e.name) ==>
              && DecideAsWritten(e, fs, swgPath, emuPath, fullScan) == Plan(true, false, Skip)
              && Decide(e, fs, swgPath, emuPath, fullScan) == Plan(true, false, Fetch(e, emuPath)))
        && (!ForcedVerification(e.name) && fullScan ==>
              && DecideAsWritten(e, fs, swgPath, emuPath, fullScan) == Plan(true, false, Copy(dst, dst))
              && Decide(e, fs, swgPath, emuPath, fullScan) == Plan(true, true, Fetch(e, emuPath)))
  {
  }

  /**
   * As written, an entry carrying the digest above is never verified: an
   * installed forced file that fits is kept whatever its content, and a full
   * scan copies a plain file without retracting or downloading it. The
   * corrected decision downloads both.
   */
  lemma MagicDigestKeptAsWritten(e: Entry, fs: Snapshot, swgPath: string, emuPath: string, fullScan: bool)
    requires e.md5 == Digest(MagicDigest)
    ensures var dst := Target(e, emuPath);
      dst in fs && !SizeMismatch(e, fs[dst]) && fs[dst].digest != ExpectedDigest(e.md5) ==>
        && (ForcedVerification(e.name) ==>
              && DecideAsWritten(e, fs, swgPath, emuPath, fullScan) == Plan(true, false, Skip)
              && Decide(e, fs, swgPath, emuPath, fullScan) == Plan(true, false, Fetch(e, emuPath)))
        && (!ForcedVerification(e.name) && fullScan ==>
              && DecideAsWritten(e, fs, swgPath, emuPath, fullScan) == Plan(true, false, Copy(dst, dst))
              && Decide(e, fs, swgPath, emuPath, fullScan) == Plan(true, true, Fetch(e, emuPath)))
  {
    MagicDigestCountsAsZero();
    LooseSentinelKeeps(e, fs, swgPath, emuPath, fullScan);
  }

  /**
   * A field such as "1e-400", which reads as zero only once StringToNumber
   * rounds it, is the sentinel both as written and once corrected, so the two
   * cascades agree on it: an installed forced file that fits is kept.
   */
  lemma TinyLiteralIsSentinel(e: Entry, fs: Snapshot, swgPath: string, emuPath: string, fullScan: bool)
    requires e.md5 == Digest("1e-400")
    ensures IsSentinel(Loose, e.md5) && IsSentinel(Strict, e.md5)
    ensures DecideAsWritten(e, fs, swgPath, emuPath, fullScan) == Decide(e, fs, swgPath, emuPath, fullScan)
    ensures ForcedVerification(e.name) && Target(e, emuPath) in fs && !SizeMismatch(e, fs[Target(e, emuPath)]) ==>
      DecideAsWritten(e, fs, swgPath, emuPath, fullScan) == Plan(true, false, Skip)
  {
    TinyLiteralEqualsZero();
    assert !IsHexDigest("1e-400");
  }
}
