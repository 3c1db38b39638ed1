/**
 * The manifest: the ordered list of files a game installation must contain,
 * how a local default list is extended and then overridden by the remote
 * list, and the byte total a session reports progress against.
 */
module Manifest {
  import opened Wrappers
  import opened JsText
  import opened Files

  /** The `md5` field as JSON delivers it: the number 0, or a string. */
  datatype Md5Field = NumberZero | Digest(text: string)

  /** One required file: relative name, expected size, expected MD5, download URL. */
  datatype Entry = Entry(name: string, size: nat, md5: Md5Field, url: string)

  /** The set of names a list mentions. */
  function Names(s: seq<Entry>): (r: set<string>)
    ensures forall i :: 0 <= i < |s| ==> s[i].name in r
    ensures forall n :: n in r ==> exists i :: 0 <= i < |s| && s[i].name == n
  {
    if |s| == 0 then {} else Names(s[..|s| - 1]) + {s[|s| - 1].name}
  }

  /** No two entries of the list share a name. */
  predicate UniqueNames(s: seq<Entry>) {
    forall i, j :: 0 <= i < j < |s| ==> s[i].name != s[j].name
  }

  /** The entries of `a` whose name is not in `drop`, in `a`'s order. */
  function Survivors(a: seq<Entry>, drop: set<string>): (r: seq<Entry>)
    ensures |r| <= |a|
  {
    if |a| == 0 then []
    else
      var last := a[|a| - 1];
      Survivors(a[..|a| - 1], drop) + (if last.name in drop then [] else [last])
  }

  /** Exactly the entries of `a` whose names are not dropped survive. */
  lemma {:induction false} SurvivorsMembers(a: seq<Entry>, drop: set<string>, x: Entry)
    ensures x in Survivors(a, drop) <==> x in a && x.name !in drop
  {
    if |a| > 0 {
      SurvivorsMembers(a[..|a| - 1], drop, x);
      assert a == a[..|a| - 1] + [a[|a| - 1]];
    }
  }

  /**
   * Name-keyed override union: the entries of `a` that `b` does not name,
   * followed by all of `b`.
   */
  function Merge(a: seq<Entry>, b: seq<Entry>): seq<Entry> {
    Survivors(a, Names(b)) + b
  }

  /** The first pass of `unionByName`: the lookup table of `b`'s names. */
  method NameLookup(b: seq<Entry>) returns (lookup: set<string>)
    ensures lookup == Names(b)
  {
    lookup := {};
    for i := 0 to |b|
      invariant lookup == Names(b[..i])
    {
      assert b[..i + 1][..i] == b[..i];
      lookup := lookup + {b[i].name};
    }
    assert b[..|b|] == b;
  }

  /** The second pass of `unionByName`: the entries of `a` the lookup does not hold. */
  method KeepUnnamed(a: seq<Entry>, lookup: set<string>) returns (r: seq<Entry>)
    ensures r == Survivors(a, lookup)
  {
    r := [];
    for i := 0 to |a|
      invariant r == Survivors(a[..i], lookup)
    {
      assert a[..i + 1][..i] == a[..i];
      if a[i].name !in lookup {
        r := r + [a[i]];
      }
    }
    assert a[..|a|] == a;
  }

  /** `unionByName`: a lookup of `b`'s names, then two appending passes. */
  method UnionByName(a: seq<Entry>, b: seq<Entry>) returns (r: seq<Entry>)
    ensures r == Merge(a, b)
  {
    var lookup := NameLookup(b);
    r := KeepUnnamed(a, lookup);
    ghost var kept := r;
    for i := 0 to |b|
      invariant r == kept + b[..i]
    {
      assert b[..i + 1] == b[..i] + [b[i]];
      r := r + [b[i]];
    }
    assert b[..|b|] == b;
  }

  /** Every merged entry comes from `a` (and `b` does not name it) or from `b`. */
  lemma MergeMembership(a: seq<Entry>, b: seq<Entry>)
    ensures forall x :: x in Merge(a, b) <==> (x in a && x.name !in Names(b)) || x in b
  {
    forall x
      ensures x in Merge(a, b) <==> (x in a && x.name !in Names(b)) || x in b
    {
      SurvivorsMembers(a, Names(b), x);
    }
  }

  /** Filtering a concatenation filters each part, in order. */
  lemma {:induction false} SurvivorsAppend(a: seq<Entry>, b: seq<Entry>, drop: set<string>)
    ensures Survivors(a + b, drop) == Survivors(a, drop) + Survivors(b, drop)
    decreases |b|
  {
    if |b| > 0 {
      var init := b[..|b| - 1];
      assert (a + b)[..|a + b| - 1] == a + init;
      assert (a + b)[|a + b| - 1] == b[|b| - 1];
      SurvivorsAppend(a, init, drop);
    } else {
      assert a + b == a;
    }
  }

  /** When `b` names an entry, the merged list holds `b`'s version of that name only. */
  lemma MergePrecedence(a: seq<Entry>, b: seq<Entry>, x: Entry, y: Entry)
    requires y in b && x in Merge(a, b) && x.name == y.name
    ensures x in b
    ensures UniqueNames(b) ==> x == y
  {
    assert y.name in Names(b);
    SurvivorsMembers(a, Names(b), x);
    assert x in b;
    if UniqueNames(b) {
      var i :| 0 <= i < |b| && b[i] == x;
      var j :| 0 <= j < |b| && b[j] == y;
      assert !(i < j) && !(j < i);
    }
  }

  lemma {:induction false} SurvivorsUnique(a: seq<Entry>, drop: set<string>)
    requires UniqueNames(a)
    ensures UniqueNames(Survivors(a, drop))
  {
    if |a| > 0 {
      var init := a[..|a| - 1];
      var last := a[|a| - 1];
      SurvivorsUnique(init, drop);
      var p := Survivors(init, drop);
      if last.name !in drop {
        forall i | 0 <= i < |p|
          ensures p[i].name != last.name
        {
          SurvivorsMembers(init, drop, p[i]);
        }
      }
    }
  }

  /** Merging two lists that each name every file once names every file once. */
  lemma MergeUnique(a: seq<Entry>, b: seq<Entry>)
    requires UniqueNames(a) && UniqueNames(b)
    ensures UniqueNames(Merge(a, b))
  {
    var p := Survivors(a, Names(b));
    SurvivorsUnique(a, Names(b));
    var r := p + b;
    forall i, j | 0 <= i < j < |r|
      ensures r[i].name != r[j].name
    {
      if j >= |p| && i < |p| {
        SurvivorsMembers(a, Names(b), r[i]);
        assert r[j] == b[j - |p|];
      }
    }
  }

  // ---------------------------------------------------------------------------
  // Building the session's manifest
  // ---------------------------------------------------------------------------

  /**
   * The nine configuration and tool files added ahead of a first install or a
   * full scan: size 0 and MD5 0, so neither is checked.
   */
  const BootstrapEntries: seq<Entry> := [
    Entry("live.cfg", 0, NumberZero, "http://patcher.swgawakening.com/launcher/live/game_files/live.cfg"),
    Entry("login.cfg", 0, NumberZero, "http://patcher.swgawakening.com/launcher/initial_install/login.cfg"),
    Entry("options.cfg", 0, NumberZero, "http://patcher.swgawakening.com/launcher/initial_install/options.cfg"),
    Entry("preload.cfg", 0, NumberZero, "http://patcher.swgawakening.com/launcher/initial_install/preload.cfg"),
    Entry("swgemu.cfg", 0, NumberZero, "http://patcher.swgawakening.com/launcher/initial_install/swgemu.cfg"),
    Entry("user.cfg", 0, NumberZero, "http://patcher.swgawakening.com/launcher/initial_install/user.cfg"),
    Entry("swgemu_machineoptions.iff", 0, NumberZero, "http://patcher.swgawakening.com/launcher/initial_install/swgemu_machineoptions.iff"),
    Entry("KSWGProfCalc.dat", 0, NumberZero, "http://patcher.swgawakening.com/launcher/initial_install/KSWGProfCalc.dat"),
    Entry("KSWGProfCalcEditor.exe", 0, NumberZero, "http://patcher.swgawakening.com/launcher/initial_install/KSWGProfCalcEditor.exe")
  ]

  /** Bootstrap files are wanted on a full scan, or when the installation has no `swgemu.cfg`. */
  predicate NeedsBootstrap(fullScan: bool, emuPath: string, fs: Snapshot) {
    fullScan || (emuPath != "" && Path(emuPath, "swgemu.cfg") !in fs)
  }

  /**
   * `getManifest`: the defaults, extended by the bootstrap files when needed,
   * overridden by the remote `required` list. A failed fetch yields no manifest,
   * so no session starts.
   */
  function GetManifest(defaults: seq<Entry>, fullScan: bool, emuPath: string, fs: Snapshot,
                       remote: Result<seq<Entry>>): (r: Option<seq<Entry>>)
    ensures r.None? <==> remote.Err?
    ensures r.Some? ==> |remote.value| <= |r.value| && r.value[|r.value| - |remote.value|..] == remote.value
    ensures r.Some? && NeedsBootstrap(fullScan, emuPath, fs) ==>
      forall x :: x in r.value <==>
        ((x in defaults || x in BootstrapEntries) && x.name !in Names(remote.value)) || x in remote.value
    ensures r.Some? && !NeedsBootstrap(fullScan, emuPath, fs) ==>
      forall x :: x in r.value <==> (x in defaults && x.name !in Names(remote.value)) || x in remote.value
    ensures r.Some? ==>
      r.value[..|r.value| - |remote.value|]
        == Survivors(defaults, Names(remote.value))
           + (if NeedsBootstrap(fullScan, emuPath, fs) then Survivors(BootstrapEntries, Names(remote.value)) else [])
  {
    match remote
    case Err(_) => None
    case Ok(required) =>
      var files := if NeedsBootstrap(fullScan, emuPath, fs) then defaults + BootstrapEntries else defaults;
      MergeMembership(files, required);
      SurvivorsAppend(defaults, BootstrapEntries, Names(required));
      Some(Merge(files, required))
  }

  // ---------------------------------------------------------------------------
  // Session weight
  // ---------------------------------------------------------------------------

  /** Archives are recognised by a case-sensitive `.zip` suffix. */
  predicate IsZip(name: string) {
    EndsWith(name, ".zip")
  }

  /** The bytes one entry contributes to a session: its size, twice for an archive. */
  function Weight(e: Entry): int {
    if IsZip(e.name) then 2 * e.size else e.size
  }

  /** The sum of the entries' weights. */
  function SessionWeight(s: seq<Entry>): int {
    if |s| == 0 then 0 else SessionWeight(s[..|s| - 1]) + Weight(s[|s| - 1])
  }

  /** The sum of the entries' declared sizes. */
  function SumSizes(s: seq<Entry>): int {
    if |s| == 0 then 0 else SumSizes(s[..|s| - 1]) + s[|s| - 1].size
  }

  /** The archive entries of a list, in order. */
  function Zips(s: seq<Entry>): seq<Entry> {
    if |s| == 0 then []
    else Zips(s[..|s| - 1]) + (if IsZip(s[|s| - 1].name) then [s[|s| - 1]] else [])
  }

  lemma {:induction false} SumSizesAppend(a: seq<Entry>, b: seq<Entry>)
    ensures SumSizes(a + b) == SumSizes(a) + SumSizes(b)
    decreases |b|
  {
    if |b| > 0 {
      assert (a + b)[..|a + b| - 1] == a + b[..|b| - 1];
      SumSizesAppend(a, b[..|b| - 1]);
    } else {
      assert a + b == a;
    }
  }

  /** The total counts every entry once and every archive a second time. */
  lemma {:induction false} TotalIsSessionWeight(s: seq<Entry>)
    ensures SumSizes(s) + SumSizes(Zips(s)) == SessionWeight(s)
  {
    if |s| > 0 {
      var init := s[..|s| - 1];
      TotalIsSessionWeight(init);
      if IsZip(s[|s| - 1].name) {
        SumSizesAppend(Zips(init), [s[|s| - 1]]);
      } else {
        assert Zips(s) == Zips(init);
      }
    }
  }

  /** `checkFiles`' summing loop. */
  method ComputeTotalBytes(files: seq<Entry>) returns (total: int)
    ensures total == SumSizes(files) + SumSizes(Zips(files))
    ensures total == SessionWeight(files)
  {
    total := 0;
    for i := 0 to |files|
      invariant total == SumSizes(files[..i]) + SumSizes(Zips(files[..i]))
    {
      assert files[..i + 1][..i] == files[..i];
      var file := files[i];
      total := total + file.size;
      if IsZip(file.name) {
        total := total + file.size;
        SumSizesAppend(Zips(files[..i]), [file]);
      } else {
        assert Zips(files[..i + 1]) == Zips(files[..i]);
      }
    }
    assert files[..|files|] == files;
    TotalIsSessionWeight(files);
  }
}
