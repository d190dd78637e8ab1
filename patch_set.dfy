/**
 * Version resolution (patcher/patch_set.go): parse a MAJOR.MINOR.PATCH[+HOTFIX] target,
 * replay the already-parsed starting_versions catalog in declaration order (merging a
 * hotfix overlay into the one entry whose version is the target patch number), and keep
 * the entries that share the effective entry's ref and do not pass its version.
 */
module PatchSet {
  import opened Wrappers
  import opened Errors
  import opened GoStrings
  import opened Ordering

  datatype SubmoduleAddition = SubmoduleAddition(url: string, ref: string, branch: string)

  /** A `submodules` entry of the catalog: a bump ref, patches, an addition, a removal. */
  datatype Submodule = Submodule(ref: string, patches: seq<string>, add: SubmoduleAddition, remove: bool)

  /** A named hotfix overlay. */
  datatype Hotfix = Hotfix(patches: seq<string>, submodules: map<string, Submodule>)

  /** One item of the `starting_versions` list. */
  datatype StartingVersion = StartingVersion(
    version: int,
    ref: string,
    submodules: map<string, Submodule>,
    patches: seq<string>,
    hotfixes: map<string, Hotfix>)

  /** A resolved version, with every patch name expanded to a path. */
  datatype Version = Version(
    major: int,
    minor: int,
    patch: int,
    ref: string,
    patches: seq<string>,
    submoduleBumps: map<string, string>,
    submodulePatches: map<string, seq<string>>,
    submoduleAdditions: map<string, SubmoduleAddition>,
    submoduleRemovals: seq<string>)

  /** The parsed target version string. */
  datatype Target = Target(major: int, minor: int, patch: int, hotfix: string)

  /** Go's zero values. */
  const NoAddition := SubmoduleAddition("", "", "")
  const NoSubmodule := Submodule("", [], NoAddition, false)
  const ZeroVersion := Version(0, 0, 0, "", [], map[], map[], map[], [])

  // ---------------------------------------------------------------------------
  // parseVersion

  /**
   * parseVersion: split on '+', split the first part on '.', convert the first three
   * pieces with Atoi; the hotfix is the second '+' piece. Fewer than three pieces make
   * the Go code index past the end of the slice, which panics.
   */
  function ParseVersion(version: string): (r: Result<Target, Error>)
    ensures r.Success? ==> '+' !in r.value.hotfix
    ensures r.Success? ==>
      MinInt64 <= r.value.major <= MaxInt64 && MinInt64 <= r.value.minor <= MaxInt64 &&
      MinInt64 <= r.value.patch <= MaxInt64
    ensures r.Failure? ==> r.error.NumError? || r.error == IndexOutOfRange
    ensures r.Success? <==>
      var parts := Split(Split(version, '+')[0], '.');
      |parts| >= 3 && IsNumeral(parts[0]) && IsNumeral(parts[1]) && IsNumeral(parts[2]) &&
      Atoi(parts[0]).Success? && Atoi(parts[1]).Success? && Atoi(parts[2]).Success?
  {
    var hotfixParts := Split(version, '+');
    var versionParts := Split(hotfixParts[0], '.');
    match Atoi(versionParts[0])
    case Failure(e) => Failure(e)
    case Success(major) =>
      if |versionParts| < 2 then Failure(IndexOutOfRange)
      else
        match Atoi(versionParts[1])
        case Failure(e) => Failure(e)
        case Success(minor) =>
          if |versionParts| < 3 then Failure(IndexOutOfRange)
          else
            match Atoi(versionParts[2])
            case Failure(e) => Failure(e)
            case Success(patch) =>
              var hotfix := if |hotfixParts| > 1 then hotfixParts[1] else "";
              Success(Target(major, minor, patch, hotfix))
  }

  /** The version string a target is written as. */
  function FormatVersion(t: Target): string {
    Itoa(t.major) + "." + Itoa(t.minor) + "." + Itoa(t.patch) +
    (if t.hotfix == "" then "" else "+" + t.hotfix)
  }

  lemma ItoaHasNoSeparators(n: int)
    ensures '.' !in Itoa(n) && '+' !in Itoa(n)
  {
  }

  /** Parsing reads back every target that can be written. */
  lemma ParseFormatRoundTrip(t: Target)
    requires MinInt64 <= t.major <= MaxInt64 && MinInt64 <= t.minor <= MaxInt64
    requires MinInt64 <= t.patch <= MaxInt64
    requires '+' !in t.hotfix
    ensures ParseVersion(FormatVersion(t)) == Success(t)
  {
    var a, b, c := Itoa(t.major), Itoa(t.minor), Itoa(t.patch);
    ItoaHasNoSeparators(t.major);
    ItoaHasNoSeparators(t.minor);
    ItoaHasNoSeparators(t.patch);
    var numbers := a + "." + b + "." + c;
    var hotfixParts := Split(FormatVersion(t), '+');
    assert hotfixParts == if t.hotfix == "" then [numbers] else [numbers, t.hotfix] by {
      HotfixSplit(numbers, t.hotfix);
    }
    var versionParts := Split(hotfixParts[0], '.');
    assert versionParts == [a, b, c] by {
      assert numbers == a + ['.'] + b + ['.'] + c;
      SplitThree(a, b, c, '.');
    }
    AtoiItoa(t.major);
    AtoiItoa(t.minor);
    AtoiItoa(t.patch);
    assert Atoi(versionParts[0]) == Success(t.major);
    assert Atoi(versionParts[1]) == Success(t.minor);
    assert Atoi(versionParts[2]) == Success(t.patch);
    assert (if |hotfixParts| > 1 then hotfixParts[1] else "") == t.hotfix;
  }

  /** The '+' pieces of a written version. */
  lemma HotfixSplit(numbers: string, hotfix: string)
    requires '+' !in numbers && '+' !in hotfix
    ensures Split(numbers + (if hotfix == "" then "" else "+" + hotfix), '+') ==
      if hotfix == "" then [numbers] else [numbers, hotfix]
  {
    if hotfix == "" {
      assert numbers + "" == numbers;
      SplitWithoutSeparator(numbers, '+');
    } else {
      assert numbers + ("+" + hotfix) == numbers + ['+'] + hotfix;
      SplitAtFirst(numbers, hotfix, '+');
      SplitWithoutSeparator(hotfix, '+');
    }
  }

  /** Whatever follows a second '+' is dropped. */
  lemma SecondPlusIgnored(numbers: string, hotfix: string, extra: string)
    requires '+' !in numbers && '+' !in hotfix
    ensures ParseVersion(numbers + "+" + hotfix + "+" + extra) == ParseVersion(numbers + "+" + hotfix)
  {
    var long := numbers + "+" + hotfix + "+" + extra;
    var short := numbers + "+" + hotfix;
    assert long == numbers + ['+'] + (hotfix + ['+'] + extra);
    assert short == numbers + ['+'] + hotfix;
    SplitAtFirst(numbers, hotfix + ['+'] + extra, '+');
    SplitAtFirst(hotfix, extra, '+');
    SplitAtFirst(numbers, hotfix, '+');
    SplitWithoutSeparator(hotfix, '+');
  }

  /** A version with two parts only reaches the missing third index. */
  lemma TwoPartVersionPanics(major: int, minor: int)
    requires MinInt64 <= major <= MaxInt64 && MinInt64 <= minor <= MaxInt64
    ensures ParseVersion(Itoa(major) + "." + Itoa(minor)) == Failure(IndexOutOfRange)
  {
    var a, b := Itoa(major), Itoa(minor);
    ItoaHasNoSeparators(major);
    ItoaHasNoSeparators(minor);
    SplitWithoutSeparator(a + "." + b, '+');
    assert [a, b][1..] == [b];
    assert JoinWith([a, b], '.') == a + "." + b;
    SplitJoin([a, b], '.');
    AtoiItoa(major);
    AtoiItoa(minor);
  }

  lemma ParsePlainVersion()
    ensures ParseVersion("1.9.2") == Success(Target(1, 9, 2, ""))
  {
    assert Itoa(1) == "1" && Itoa(9) == "9" && Itoa(2) == "2";
    assert FormatVersion(Target(1, 9, 2, "")) == "1.9.2";
    ParseFormatRoundTrip(Target(1, 9, 2, ""));
  }

  lemma ParseHotfixVersion()
    ensures ParseVersion("3.2.1+something.else") == Success(Target(3, 2, 1, "something.else"))
  {
    HotfixVersionText();
    ParseFormatRoundTrip(Target(3, 2, 1, "something.else"));
  }

  /** How the target 3.2.1 with hotfix something.else is written. */
  lemma HotfixVersionText()
    ensures FormatVersion(Target(3, 2, 1, "something.else")) == "3.2.1+something.else"
  {
    assert Itoa(3) == "3" && Itoa(2) == "2" && Itoa(1) == "1";
  }

  lemma ParseShortVersion()
    ensures ParseVersion("1.9") == Failure(IndexOutOfRange)
  {
    assert Itoa(1) + "." + Itoa(9) == "1.9";
    TwoPartVersionPanics(1, 9);
  }

  lemma ParseGarbage()
    ensures ParseVersion("%$#") == Failure(NumError("%$#", InvalidSyntax))
  {
    var s := "%$#";
    SplitWithoutSeparator(s, '+');
    SplitWithoutSeparator(s, '.');
    assert Split(Split(s, '+')[0], '.') == [s];
    assert s[0] == '%' && !IsDigit(s[0]) && s[0] != '+' && s[0] != '-';
    assert !(forall k :: 0 <= k < |s| ==> IsDigit(s[k]));
    assert !IsNumeral(s);
    assert Atoi(s) == Failure(NumError(s, InvalidSyntax));
  }

  // ---------------------------------------------------------------------------
  // Hotfix merge

  /** The submodule entry for path, or the zero value when there is none. */
  function SubmoduleAt(subs: map<string, Submodule>, path: string): Submodule {
    if path in subs then subs[path] else NoSubmodule
  }

  /** The entry for an overlaid path: the overlay's ref if it has one, both patch lists, no addition or removal. */
  function MergedEntry(base: map<string, Submodule>, path: string, o: Submodule): Submodule {
    Submodule(
      if o.ref != "" then o.ref else SubmoduleAt(base, path).ref,
      SubmoduleAt(base, path).patches + o.patches,
      NoAddition,
      false)
  }

  /**
   * The submodules of an entry after a hotfix overlay: each overlaid path gets the
   * overlay's ref when it has one (else the entry's), the entry's patches followed by the
   * overlay's, and no addition or removal; other paths are unchanged.
   */
  function MergedSubmodules(base: map<string, Submodule>, overlay: map<string, Submodule>): (merged: map<string, Submodule>)
    ensures merged.Keys == base.Keys + overlay.Keys
    ensures forall p :: p in overlay ==>
      merged[p].ref == (if overlay[p].ref != "" then overlay[p].ref else SubmoduleAt(base, p).ref) &&
      merged[p].patches == SubmoduleAt(base, p).patches + overlay[p].patches &&
      merged[p].add == NoAddition && !merged[p].remove
    ensures forall p :: p in base && p !in overlay ==> merged[p] == base[p]
  {
    map p | p in base.Keys + overlay.Keys :: if p in overlay then MergedEntry(base, p, overlay[p]) else base[p]
  }

  /** A map with the merged keys and entries is the merge. */
  lemma MergedPointwise(base: map<string, Submodule>, overlay: map<string, Submodule>, merged: map<string, Submodule>)
    requires merged.Keys == base.Keys + overlay.Keys
    requires forall p :: p in merged ==> merged[p] == if p in overlay then MergedEntry(base, p, overlay[p]) else base[p]
    ensures merged == MergedSubmodules(base, overlay)
  {
  }

  /** The loop over the overlay's submodules (patch_set.go:97-115), one path at a time. */
  method MergeHotfix(base: map<string, Submodule>, overlay: map<string, Submodule>) returns (merged: map<string, Submodule>)
    ensures merged == MergedSubmodules(base, overlay)
  {
    merged := base;
    var remaining := overlay.Keys;
    while remaining != {}
      invariant remaining <= overlay.Keys
      invariant merged.Keys == base.Keys + (overlay.Keys - remaining)
      invariant forall p :: p in merged ==>
        merged[p] == if p in overlay && p !in remaining then MergedEntry(base, p, overlay[p]) else base[p]
      decreases remaining
    {
      var path :| path in remaining;
      if path !in merged {
        merged := merged[path := NoSubmodule];
      }
      assert merged[path] == SubmoduleAt(base, path);
      var hotfixRef := merged[path].ref;
      if overlay[path].ref != "" {
        hotfixRef := overlay[path].ref;
      }
      var entry := Submodule(hotfixRef, merged[path].patches + overlay[path].patches, NoAddition, false);
      assert entry == MergedEntry(base, path, overlay[path]);
      merged := merged[path := entry];
      remaining := remaining - {path};
    }
    MergedPointwise(base, overlay, merged);
  }

  /**
   * An entry as the resolver sees it: with the hotfix merged in when it is the entry
   * for the target patch and a hotfix was asked for.
   */
  function Prepared(v: StartingVersion, t: Target): (r: Result<StartingVersion, Error>)
    ensures v.version != t.patch || t.hotfix == "" ==> r == Success(v)
    ensures r.Failure? <==> v.version == t.patch && t.hotfix != "" && t.hotfix !in v.hotfixes
    ensures r.Failure? ==> r.error == HotfixNotFound(t.hotfix)
    ensures r.Success? && v.version == t.patch && t.hotfix != "" ==>
      var h := v.hotfixes[t.hotfix];
      r.value == v.(patches := v.patches + h.patches, submodules := MergedSubmodules(v.submodules, h.submodules))
  {
    if v.version == t.patch && t.hotfix != "" then
      if t.hotfix in v.hotfixes then
        var h := v.hotfixes[t.hotfix];
        Success(v.(patches := v.patches + h.patches, submodules := MergedSubmodules(v.submodules, h.submodules)))
      else Failure(HotfixNotFound(t.hotfix))
    else Success(v)
  }

  // ---------------------------------------------------------------------------
  // Materialising one entry

  /** Every patch name expanded to join(root, releaseDir, name), in order. */
  function Expand(root: string, dir: string, names: seq<string>): (paths: seq<string>)
    ensures |paths| == |names|
    ensures forall i :: 0 <= i < |names| ==> paths[i] == Join3(root, dir, names[i])
  {
    seq(|names|, i requires 0 <= i < |names| => Join3(root, dir, names[i]))
  }

  lemma ExpandAppend(root: string, dir: string, a: seq<string>, b: seq<string>)
    ensures Expand(root, dir, a + b) == Expand(root, dir, a) + Expand(root, dir, b)
  {
  }

  /** The loop that expands a list of patch names (patch_set.go:121-123, 132-134). */
  method ExpandPatches(root: string, dir: string, names: seq<string>) returns (paths: seq<string>)
    ensures paths == Expand(root, dir, names)
  {
    paths := [];
    for i := 0 to |names|
      invariant paths == Expand(root, dir, names[..i])
    {
      paths := paths + [Join3(root, dir, names[i])];
      assert names[..i + 1] == names[..i] + [names[i]];
    }
    assert names[..|names|] == names;
  }

  /** Paths with a non-empty ref are bumped to it. */
  function Bumps(subs: map<string, Submodule>): (bumps: map<string, string>)
    ensures forall p :: p in bumps <==> p in subs && subs[p].ref != ""
    ensures forall p :: p in bumps ==> bumps[p] == subs[p].ref
  {
    map p | p in subs && subs[p].ref != "" :: subs[p].ref
  }

  /** Paths with a non-empty patch list get their expanded patches. */
  function SubmodulePatchPaths(root: string, dir: string, subs: map<string, Submodule>): (patches: map<string, seq<string>>)
    ensures forall p :: p in patches <==> p in subs && |subs[p].patches| > 0
    ensures forall p :: p in patches ==> patches[p] == Expand(root, dir, subs[p].patches)
  {
    map p | p in subs && |subs[p].patches| > 0 :: Expand(root, dir, subs[p].patches)
  }

  /** Paths with an addition URL are added as declared. */
  function Additions(subs: map<string, Submodule>): (additions: map<string, SubmoduleAddition>)
    ensures forall p :: p in additions <==> p in subs && subs[p].add.url != ""
    ensures forall p :: p in additions ==> additions[p] == subs[p].add
  {
    map p | p in subs && subs[p].add.url != "" :: subs[p].add
  }

  /** Paths marked for removal. */
  function Removals(subs: map<string, Submodule>): (paths: set<string>)
    ensures forall p :: p in paths <==> p in subs && subs[p].remove
  {
    set p | p in subs && subs[p].remove
  }

  /** Paths that are added without a ref: each is an error. */
  function MissingRefs(subs: map<string, Submodule>): (paths: set<string>)
    ensures forall p :: p in paths <==> p in subs && subs[p].add.url != "" && subs[p].add.ref == ""
  {
    set p | p in subs && subs[p].add.url != "" && subs[p].add.ref == ""
  }

  /**
   * r is what the resolver builds from the (merged) entry v: every field is determined,
   * except the order of the removals, which follows Go's unspecified map order.
   */
  ghost predicate Materialized(r: Version, v: StartingVersion, t: Target, root: string, dir: string) {
    && r.major == t.major && r.minor == t.minor && r.patch == v.version && r.ref == v.ref
    && r.patches == Expand(root, dir, v.patches)
    && r.submoduleBumps == Bumps(v.submodules)
    && r.submodulePatches == SubmodulePatchPaths(root, dir, v.submodules)
    && r.submoduleAdditions == Additions(v.submodules)
    && Enumerates(r.submoduleRemovals, Removals(v.submodules))
  }

  /** The four collections the submodule loop has built from the entries in seen. */
  ghost predicate CollectedFrom(
    seen: map<string, Submodule>, root: string, dir: string,
    bumps: map<string, string>, submodulePatches: map<string, seq<string>>,
    additions: map<string, SubmoduleAddition>, removals: seq<string>)
  {
    && bumps == Bumps(seen)
    && submodulePatches == SubmodulePatchPaths(root, dir, seen)
    && additions == Additions(seen)
    && Enumerates(removals, Removals(seen))
    && MissingRefs(seen) == {}
  }

  /** Visiting one more path extends every collection by that path alone. */
  lemma CollectStep(
    seen: map<string, Submodule>, root: string, dir: string,
    bumps: map<string, string>, submodulePatches: map<string, seq<string>>,
    additions: map<string, SubmoduleAddition>, removals: seq<string>,
    p: string, s: Submodule)
    requires p !in seen
    requires CollectedFrom(seen, root, dir, bumps, submodulePatches, additions, removals)
    requires !(s.add.url != "" && s.add.ref == "")
    ensures CollectedFrom(seen[p := s], root, dir,
      if s.ref != "" then bumps[p := s.ref] else bumps,
      if |s.patches| > 0 then submodulePatches[p := Expand(root, dir, s.patches)] else submodulePatches,
      if s.add.url != "" then additions[p := s.add] else additions,
      if s.remove then removals + [p] else removals)
  {
    BumpsStep(seen, p, s);
    PatchPathsStep(root, dir, seen, p, s);
    AdditionsStep(seen, p, s);
    RemovalsStep(seen, p, s);
    MissingRefsStep(seen, p, s);
    if s.remove {
      EnumeratesAppend(removals, Removals(seen), p);
    }
  }

  lemma BumpsStep(m: map<string, Submodule>, p: string, s: Submodule)
    requires p !in m
    ensures Bumps(m[p := s]) == if s.ref != "" then Bumps(m)[p := s.ref] else Bumps(m)
  {
  }

  lemma PatchPathsStep(root: string, dir: string, m: map<string, Submodule>, p: string, s: Submodule)
    requires p !in m
    ensures SubmodulePatchPaths(root, dir, m[p := s]) ==
      if |s.patches| > 0 then SubmodulePatchPaths(root, dir, m)[p := Expand(root, dir, s.patches)]
      else SubmodulePatchPaths(root, dir, m)
  {
  }

  lemma AdditionsStep(m: map<string, Submodule>, p: string, s: Submodule)
    requires p !in m
    ensures Additions(m[p := s]) == if s.add.url != "" then Additions(m)[p := s.add] else Additions(m)
  {
  }

  lemma RemovalsStep(m: map<string, Submodule>, p: string, s: Submodule)
    requires p !in m
    ensures Removals(m[p := s]) == if s.remove then Removals(m) + {p} else Removals(m)
  {
  }

  lemma MissingRefsStep(m: map<string, Submodule>, p: string, s: Submodule)
    requires p !in m
    ensures MissingRefs(m[p := s]) == if s.add.url != "" && s.add.ref == "" then MissingRefs(m) + {p} else MissingRefs(m)
  {
  }

  /**
   * One entry of the loop at patch_set.go:82-91 and 121-151: the patches expanded, then
   * the submodules collected.
   */
  method MaterializeEntry(v: StartingVersion, t: Target, root: string, dir: string) returns (r: Result<Version, Error>)
    ensures r.Success? <==> MissingRefs(v.submodules) == {}
    ensures r.Failure? ==> exists p :: p in MissingRefs(v.submodules) && r.error == MissingSubmoduleRef(p)
    ensures r.Success? ==> Materialized(r.value, v, t, root, dir)
  {
    var patches := ExpandPatches(root, dir, v.patches);
    var err, bumps, submodulePatches, additions, removals := CollectSubmodules(v.submodules, root, dir);
    if err.Some? {
      return Failure(err.value);
    }
    r := Success(Version(t.major, t.minor, v.version, v.ref, patches, bumps, submodulePatches, additions, removals));
  }

  /**
   * The submodule loop (patch_set.go:125-151); the submodules are visited in an
   * unspecified order, like Go's range over a map, and the first addition without a ref
   * stops it.
   */
  method CollectSubmodules(subs: map<string, Submodule>, root: string, dir: string)
    returns (err: Option<Error>, bumps: map<string, string>, submodulePatches: map<string, seq<string>>,
             additions: map<string, SubmoduleAddition>, removals: seq<string>)
    ensures err.None? <==> MissingRefs(subs) == {}
    ensures err.Some? ==> exists p :: p in MissingRefs(subs) && err.value == MissingSubmoduleRef(p)
    ensures err.None? ==> CollectedFrom(subs, root, dir, bumps, submodulePatches, additions, removals)
  {
    bumps, submodulePatches, additions, removals := map[], map[], map[], [];
    var remaining := subs.Keys;
    ghost var seen: map<string, Submodule> := map[];
    while remaining != {}
      invariant remaining <= subs.Keys
      invariant forall p :: p in seen <==> p in subs && p !in remaining
      invariant forall p :: p in seen ==> seen[p] == subs[p]
      invariant CollectedFrom(seen, root, dir, bumps, submodulePatches, additions, removals)
      decreases remaining
    {
      var path :| path in remaining;
      var submodule := subs[path];
      ghost var before := (bumps, submodulePatches, additions, removals);
      bumps := if submodule.ref != "" then bumps[path := submodule.ref] else bumps;
      var expanded := ExpandPatches(root, dir, submodule.patches);
      submodulePatches := if |expanded| > 0 then submodulePatches[path := expanded] else submodulePatches;
      if submodule.add.url != "" && submodule.add.ref == "" {
        assert path in MissingRefs(subs);
        return Some(MissingSubmoduleRef(path)), bumps, submodulePatches, additions, removals;
      }
      additions := if submodule.add.url != "" then additions[path := submodule.add] else additions;
      removals := if submodule.remove then removals + [path] else removals;
      CollectStep(seen, root, dir, before.0, before.1, before.2, before.3, path, submodule);
      remaining := remaining - {path};
      seen := seen[path := submodule];
    }
    assert seen == subs;
    err := None;
  }

  // ---------------------------------------------------------------------------
  // Errors of the replay loop

  /** The errors that an entry can stop the replay with (a set: Go's map order picks one). */
  function EntryFaults(v: StartingVersion, t: Target): (faults: set<Error>)
    ensures Prepared(v, t).Failure? ==> faults == {HotfixNotFound(t.hotfix)}
    ensures Prepared(v, t).Success? ==>
      forall e :: e in faults <==> exists p :: p in MissingRefs(Prepared(v, t).value.submodules) && e == MissingSubmoduleRef(p)
  {
    match Prepared(v, t)
    case Failure(e) => {e}
    case Success(m) => set p | p in MissingRefs(m.submodules) :: MissingSubmoduleRef(p)
  }

  /** The index of the first entry that stops the replay, or |catalog| when none does. */
  function FirstFaulty(catalog: seq<StartingVersion>, t: Target): (k: nat)
    ensures k <= |catalog|
    ensures forall j :: 0 <= j < k ==> EntryFaults(catalog[j], t) == {}
    ensures k < |catalog| ==> EntryFaults(catalog[k], t) != {}
    decreases |catalog|
  {
    if |catalog| == 0 then 0
    else if EntryFaults(catalog[0], t) != {} then 0
    else 1 + FirstFaulty(catalog[1..], t)
  }

  /** The first faulty entry is the one after a fault-free prefix. */
  lemma {:induction false} FirstFaultyAt(catalog: seq<StartingVersion>, t: Target, i: nat)
    requires i <= |catalog|
    requires forall j :: 0 <= j < i ==> EntryFaults(catalog[j], t) == {}
    requires i < |catalog| ==> EntryFaults(catalog[i], t) != {}
    ensures FirstFaulty(catalog, t) == i
    decreases i
  {
    if i > 0 {
      assert EntryFaults(catalog[0], t) == {};
      var rest := catalog[1..];
      assert forall j :: 0 <= j < i - 1 ==> rest[j] == catalog[j + 1];
      FirstFaultyAt(rest, t, i - 1);
    }
  }

  /** Without a fault, every entry for the target patch has the requested hotfix, and no addition lacks a ref. */
  lemma FaultFreeCatalog(catalog: seq<StartingVersion>, t: Target, j: nat)
    requires FirstFaulty(catalog, t) == |catalog| && j < |catalog|
    ensures catalog[j].version == t.patch && t.hotfix != "" ==> t.hotfix in catalog[j].hotfixes
    ensures Prepared(catalog[j], t).Success? && MissingRefs(Prepared(catalog[j], t).value.submodules) == {}
  {
    var m := Prepared(catalog[j], t);
    assert EntryFaults(catalog[j], t) == {};
    assert m.Success?;
    assert forall p :: p in MissingRefs(m.value.submodules) ==> MissingSubmoduleRef(p) in EntryFaults(catalog[j], t);
  }

  // ---------------------------------------------------------------------------
  // Selection

  /**
   * The position of the effective entry: the last one, in declaration order, whose
   * version is at most patch; -1 when there is none.
   */
  function EffectiveIndex(vs: seq<Version>, patch: int): (k: int)
    ensures -1 <= k < |vs|
    ensures k >= 0 ==> vs[k].patch <= patch
    ensures forall m :: k < m < |vs| ==> vs[m].patch > patch
    decreases |vs|
  {
    if |vs| == 0 then -1
    else if vs[|vs| - 1].patch <= patch then |vs| - 1
    else EffectiveIndex(vs[..|vs| - 1], patch)
  }

  /** The effective entry, or Go's zero Version when no entry is at most patch. */
  function Effective(vs: seq<Version>, patch: int): Version {
    var k := EffectiveIndex(vs, patch);
    if k < 0 then ZeroVersion else vs[k]
  }

  lemma EffectiveAppend(vs: seq<Version>, x: Version, patch: int)
    ensures Effective(vs + [x], patch) == if x.patch <= patch then x else Effective(vs, patch)
  {
    assert (vs + [x])[..|vs|] == vs;
  }

  /** The entries, in order, whose ref is ref and whose version is at most bound. */
  function Filter(vs: seq<Version>, ref: string, bound: int): (r: seq<Version>)
    ensures |r| <= |vs|
    ensures forall x :: x in r <==> x in vs && x.ref == ref && x.patch <= bound
    decreases |vs|
  {
    if |vs| == 0 then []
    else
      var front := vs[..|vs| - 1];
      var last := vs[|vs| - 1];
      assert vs == front + [last];
      var rest := Filter(front, ref, bound);
      if last.ref == ref && last.patch <= bound then rest + [last] else rest
  }

  lemma {:induction false} FilterAppend(a: seq<Version>, b: seq<Version>, ref: string, bound: int)
    ensures Filter(a + b, ref, bound) == Filter(a, ref, bound) + Filter(b, ref, bound)
    decreases |b|
  {
    if |b| == 0 {
      assert a + b == a;
    } else {
      var front := b[..|b| - 1];
      assert (a + b)[..|a + b| - 1] == a + front;
      assert (a + b)[|a + b| - 1] == b[|b| - 1];
      FilterAppend(a, front, ref, bound);
    }
  }

  /** The selection rule: the entries that share the effective entry's ref and do not pass its version. */
  function Select(vs: seq<Version>, patch: int): (r: seq<Version>)
    ensures forall x :: x in r <==>
      x in vs && x.ref == Effective(vs, patch).ref && x.patch <= Effective(vs, patch).patch
  {
    var e := Effective(vs, patch);
    Filter(vs, e.ref, e.patch)
  }

  /** The selection ends with the effective entry whenever some entry is at most the target. */
  lemma SelectEndsWithEffective(vs: seq<Version>, patch: int, j: int)
    requires 0 <= j < |vs| && vs[j].patch <= patch
    ensures |Select(vs, patch)| > 0
    ensures Select(vs, patch)[|Select(vs, patch)| - 1] == Effective(vs, patch)
  {
    var k := EffectiveIndex(vs, patch);
    assert j <= k;
    FilterEndsWith(vs, k);
  }

  lemma TakeOneMore<T>(s: seq<T>, k: nat)
    requires k < |s|
    ensures s[..k + 1] == s[..k] + [s[k]]
  {
  }

  /** Filtering by an entry that every later entry passes ends with that entry. */
  lemma FilterEndsWith(vs: seq<Version>, k: nat)
    requires k < |vs| && forall m :: k < m < |vs| ==> vs[m].patch > vs[k].patch
    ensures Filter(vs, vs[k].ref, vs[k].patch) == Filter(vs[..k], vs[k].ref, vs[k].patch) + [vs[k]]
  {
    var e := vs[k];
    FilterSplit(vs, k + 1, e.ref, e.patch);
    FilterNone(vs[k + 1..], e.ref, e.patch);
    FilterThrough(vs, k);
  }

  /** Filtering splits at any position. */
  lemma FilterSplit(vs: seq<Version>, i: nat, ref: string, bound: int)
    requires i <= |vs|
    ensures Filter(vs, ref, bound) == Filter(vs[..i], ref, bound) + Filter(vs[i..], ref, bound)
  {
    assert vs == vs[..i] + vs[i..];
    FilterAppend(vs[..i], vs[i..], ref, bound);
  }

  /** Filtering the entries up to k by entry k keeps it last. */
  lemma FilterThrough(vs: seq<Version>, k: nat)
    requires k < |vs|
    ensures Filter(vs[..k + 1], vs[k].ref, vs[k].patch) == Filter(vs[..k], vs[k].ref, vs[k].patch) + [vs[k]]
  {
    TakeOneMore(vs, k);
    FilterKeepsLast(vs[..k], vs[k]);
  }

  lemma FilterKeepsLast(vs: seq<Version>, e: Version)
    ensures Filter(vs + [e], e.ref, e.patch) == Filter(vs, e.ref, e.patch) + [e]
  {
    assert (vs + [e])[..|vs|] == vs;
  }

  /** Entries past the bound are never kept. */
  lemma {:induction false} FilterNone(vs: seq<Version>, ref: string, bound: int)
    requires forall m :: 0 <= m < |vs| ==> vs[m].patch > bound
    ensures Filter(vs, ref, bound) == []
    decreases |vs|
  {
    if |vs| > 0 {
      FilterNone(vs[..|vs| - 1], ref, bound);
    }
  }

  /** With a non-negative target and no entry at or below it, nothing is selected. */
  lemma NothingEligible(vs: seq<Version>, patch: int)
    requires patch >= 0
    requires forall j :: 0 <= j < |vs| ==> vs[j].patch > patch
    ensures Select(vs, patch) == []
  {
    assert Effective(vs, patch) == ZeroVersion;
    FilterNone(vs, "", 0);
  }

  /** A version that only fixes its patch number and ref. */
  function At(patch: int, ref: string): Version {
    ZeroVersion.(patch := patch, ref := ref)
  }

  /** A new baseline ref supersedes the entries before it. */
  lemma BaselineReset()
    ensures Select([At(0, "v122"), At(1, "v123"), At(2, "v124")], 2) == [At(2, "v124")]
  {
    var vs := [At(0, "v122"), At(1, "v123"), At(2, "v124")];
    assert EffectiveIndex(vs, 2) == 2;
    assert vs[..2][..1] == [At(0, "v122")];
    assert Filter(vs[..2][..1], "v124", 2) == [];
    assert Filter(vs[..2], "v124", 2) == [];
  }

  /** Entries that share the effective ref accumulate, up to the target. */
  lemma SharedRefAccumulates()
    ensures Select([At(0, "r"), At(1, "r"), At(2, "r")], 1) == [At(0, "r"), At(1, "r")]
  {
    var vs := [At(0, "r"), At(1, "r"), At(2, "r")];
    assert vs[..2] == [At(0, "r"), At(1, "r")];
    assert EffectiveIndex(vs[..2], 1) == 1;
    assert [At(0, "r"), At(1, "r")][..1] == [At(0, "r")];
    assert Filter([At(0, "r")], "r", 1) == [At(0, "r")];
  }

  /**
   * The effective entry is the last one declared, not the highest: a later, lower entry
   * wins and the entry for the target itself is dropped.
   */
  lemma DeclarationOrderDecides()
    ensures Select([At(2, "a"), At(1, "b")], 2) == [At(1, "b")]
  {
    var vs := [At(2, "a"), At(1, "b")];
    assert EffectiveIndex(vs, 2) == 1;
    assert vs[..1] == [At(2, "a")];
    assert Filter([At(2, "a")], "b", 1) == [];
  }

  /** Two versions that differ at most in the order of their removals. */
  ghost predicate SameUpToRemovalOrder(x: Version, y: Version) {
    x.(submoduleRemovals := []) == y.(submoduleRemovals := []) &&
    multiset(x.submoduleRemovals) == multiset(y.submoduleRemovals)
  }

  ghost predicate Related(a: seq<Version>, b: seq<Version>) {
    |a| == |b| && forall i :: 0 <= i < |a| ==> SameUpToRemovalOrder(a[i], b[i])
  }

  lemma {:induction false} RelatedEffectiveIndex(a: seq<Version>, b: seq<Version>, patch: int)
    requires Related(a, b)
    ensures EffectiveIndex(a, patch) == EffectiveIndex(b, patch)
    decreases |a|
  {
    if |a| > 0 {
      assert a[|a| - 1].patch == b[|b| - 1].patch;
      RelatedEffectiveIndex(a[..|a| - 1], b[..|b| - 1], patch);
    }
  }

  lemma {:induction false} RelatedFilter(a: seq<Version>, b: seq<Version>, ref: string, bound: int)
    requires Related(a, b)
    ensures Related(Filter(a, ref, bound), Filter(b, ref, bound))
    decreases |a|
  {
    if |a| > 0 {
      assert a[|a| - 1].patch == b[|b| - 1].patch && a[|a| - 1].ref == b[|b| - 1].ref;
      RelatedFilter(a[..|a| - 1], b[..|b| - 1], ref, bound);
    }
  }

  /** Selecting from related lists gives related lists. */
  lemma SelectRelated(a: seq<Version>, b: seq<Version>, patch: int)
    requires Related(a, b)
    ensures Related(Select(a, patch), Select(b, patch))
  {
    RelatedEffectiveIndex(a, b, patch);
    var k := EffectiveIndex(a, patch);
    if k >= 0 {
      assert a[k].ref == b[k].ref && a[k].patch == b[k].patch;
    }
    RelatedFilter(a, b, Effective(a, patch).ref, Effective(a, patch).patch);
  }

  /** The materialised form of an entry is unique up to the order of its removals. */
  lemma MaterializedUnique(x: Version, y: Version, v: StartingVersion, t: Target, root: string, dir: string)
    requires Materialized(x, v, t, root, dir) && Materialized(y, v, t, root, dir)
    ensures SameUpToRemovalOrder(x, y)
  {
    EnumerationsArePermutations(x.submoduleRemovals, y.submoduleRemovals, Removals(v.submodules));
  }

  /** all holds, in order, the materialised form of every (merged) catalog entry. */
  ghost predicate Resolves(all: seq<Version>, catalog: seq<StartingVersion>, t: Target, root: string, dir: string) {
    |all| == |catalog| &&
    forall i :: 0 <= i < |all| ==>
      Prepared(catalog[i], t).Success? && Materialized(all[i], Prepared(catalog[i], t).value, t, root, dir)
  }

  // ---------------------------------------------------------------------------
  // VersionsToApplyFor

  /**
   * One pass of the replay loop (patch_set.go:93-151): the hotfix merged in when the
   * entry is the target patch, then the entry materialised.
   */
  method ResolveEntry(v: StartingVersion, t: Target, root: string, dir: string) returns (r: Result<Version, Error>)
    ensures r.Failure? <==> EntryFaults(v, t) != {}
    ensures r.Failure? ==> r.error in EntryFaults(v, t)
    ensures r.Success? ==> Prepared(v, t).Success? && Materialized(r.value, Prepared(v, t).value, t, root, dir)
  {
    var w := v;
    if v.version == t.patch && t.hotfix != "" {
      if t.hotfix in v.hotfixes {
        var hotfix := v.hotfixes[t.hotfix];
        var merged := MergeHotfix(v.submodules, hotfix.submodules);
        w := v.(patches := v.patches + hotfix.patches, submodules := merged);
      } else {
        return Failure(HotfixNotFound(t.hotfix));
      }
    }
    assert Prepared(v, t) == Success(w);
    r := MaterializeEntry(w, t, root, dir);
    if r.Failure? {
      var p :| p in MissingRefs(w.submodules) && r.error == MissingSubmoduleRef(p);
      assert r.error in EntryFaults(v, t);
    }
  }

  /**
   * The replay loop (patch_set.go:82-157): every entry in declaration order, with the
   * hotfix merged in where it applies, materialised; the last entry whose version is at
   * most the target patch is remembered as the effective one.
   */
  method ReplayCatalog(catalog: seq<StartingVersion>, t: Target, root: string, dir: string)
    returns (r: Result<seq<Version>, Error>, effective: Version)
    ensures r.Failure? <==> FirstFaulty(catalog, t) < |catalog|
    ensures r.Failure? ==> r.error in EntryFaults(catalog[FirstFaulty(catalog, t)], t)
    ensures r.Success? ==> Resolves(r.value, catalog, t, root, dir) && effective == Effective(r.value, t.patch)
  {
    var versions: seq<Version> := [];
    effective := ZeroVersion;
    var i := 0;
    while i < |catalog|
      invariant 0 <= i <= |catalog|
      invariant |versions| == i
      invariant forall j :: 0 <= j < i ==> EntryFaults(catalog[j], t) == {}
      invariant forall j :: 0 <= j < i ==>
        Prepared(catalog[j], t).Success? && Materialized(versions[j], Prepared(catalog[j], t).value, t, root, dir)
      invariant effective == Effective(versions, t.patch)
    {
      var vers := ResolveEntry(catalog[i], t, root, dir);
      if vers.Failure? {
        FirstFaultyAt(catalog, t, i);
        return Failure(vers.error), effective;
      }
      if catalog[i].version <= t.patch {
        effective := vers.value;
      }
      EffectiveAppend(versions, vers.value, t.patch);
      versions := versions + [vers.value];
      i := i + 1;
    }
    FirstFaultyAt(catalog, t, |catalog|);
    r := Success(versions);
  }

  /** The filter loop (patch_set.go:159-164). */
  method FilterVersions(versions: seq<Version>, effective: Version) returns (toApply: seq<Version>)
    ensures toApply == Filter(versions, effective.ref, effective.patch)
  {
    toApply := [];
    for j := 0 to |versions|
      invariant toApply == Filter(versions[..j], effective.ref, effective.patch)
    {
      assert versions[..j + 1][..j] == versions[..j];
      if versions[j].ref == effective.ref && versions[j].patch <= effective.patch {
        toApply := toApply + [versions[j]];
      }
    }
    assert versions[..|versions|] == versions;
  }

  /**
   * VersionsToApplyFor. The directory lookup (releaseDirName) and the YAML load
   * (parseStartingVersionsFile) are collaborators: their results are parameters.
   */
  method VersionsToApplyFor(
    version: string,
    root: string,
    releaseDir: Result<string, Error>,
    startingVersions: Result<seq<StartingVersion>, Error>)
    returns (r: Result<seq<Version>, Error>, ghost all: seq<Version>)
    ensures ParseVersion(version).Failure? ==> r == Failure(ParseVersion(version).error)
    ensures ParseVersion(version).Success? && releaseDir.Failure? ==> r == Failure(releaseDir.error)
    ensures ParseVersion(version).Success? && releaseDir.Success? && startingVersions.Failure? ==>
      r == Failure(startingVersions.error)
    ensures ParseVersion(version).Success? && releaseDir.Success? && startingVersions.Success? ==>
      var t := ParseVersion(version).value;
      var catalog := startingVersions.value;
      var k := FirstFaulty(catalog, t);
      (r.Failure? <==> k < |catalog|) &&
      (r.Failure? ==> r.error in EntryFaults(catalog[k], t)) &&
      (r.Success? ==> Resolves(all, catalog, t, root, releaseDir.value) && r.value == Select(all, t.patch))
  {
    all := [];
    var parsed := ParseVersion(version);
    if parsed.Failure? {
      return Failure(parsed.error), all;
    }
    if releaseDir.Failure? {
      return Failure(releaseDir.error), all;
    }
    if startingVersions.Failure? {
      return Failure(startingVersions.error), all;
    }
    var t := parsed.value;
    var replayed, effective := ReplayCatalog(startingVersions.value, t, root, releaseDir.value);
    if replayed.Failure? {
      return Failure(replayed.error), all;
    }
    all := replayed.value;
    var toApply := FilterVersions(replayed.value, effective);
    r := Success(toApply);
  }

  /** Two resolutions of the same catalog are related entry by entry. */
  lemma ResolvesRelated(a: seq<Version>, b: seq<Version>, catalog: seq<StartingVersion>, t: Target, root: string, dir: string)
    requires Resolves(a, catalog, t, root, dir) && Resolves(b, catalog, t, root, dir)
    ensures Related(a, b)
  {
    forall i | 0 <= i < |a|
      ensures SameUpToRemovalOrder(a[i], b[i])
    {
      MaterializedUnique(a[i], b[i], Prepared(catalog[i], t).value, t, root, dir);
    }
  }

  /**
   * Resolving the same inputs twice gives the same versions, in the same order, except
   * for the order of each version's submodule removals.
   */
  lemma ResolutionDeterministic(
    version: string, root: string, dir: string, catalog: seq<StartingVersion>,
    a: seq<Version>, b: seq<Version>)
    requires ParseVersion(version).Success?
    requires Resolves(a, catalog, ParseVersion(version).value, root, dir)
    requires Resolves(b, catalog, ParseVersion(version).value, root, dir)
    ensures Related(Select(a, ParseVersion(version).value.patch), Select(b, ParseVersion(version).value.patch))
  {
    var t := ParseVersion(version).value;
    ResolvesRelated(a, b, catalog, t, root, dir);
    SelectRelated(a, b, t.patch);
  }
}
