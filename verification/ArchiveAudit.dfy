/** Auditing the members and links of a web artifact archive, on paths as text. */
module ArchiveAudit {

  type Parts = seq<string>

  const ARTIFACT_ROOT: string := ".next"

  // ----- Pure POSIX paths -----

  /** The components between slashes, empty ones and "." left out, as `PurePosixPath` drops them. */
  function Components(text: string): (parts: Parts)
    ensures forall p :: p in parts ==> p != "" && p != "." && '/' !in p
  {
    ComponentsFrom(text, "")
  }

  /** `current` is the component read so far. */
  function ComponentsFrom(text: string, current: string): (parts: Parts)
    requires '/' !in current
    ensures forall p :: p in parts ==> p != "" && p != "." && '/' !in p
    decreases |text|
  {
    if |text| == 0 then Kept(current)
    else if text[0] == '/' then Kept(current) + ComponentsFrom(text[1..], "")
    else ComponentsFrom(text[1..], current + [text[0]])
  }

  function Kept(component: string): Parts {
    if component == "" || component == "." then [] else [component]
  }

  /** The root of a path: exactly two leading slashes are kept as they are, any other number counts as one. */
  function Root(text: string): string {
    if |text| == 0 || text[0] != '/' then ""
    else if |text| >= 2 && text[1] == '/' && (|text| == 2 || text[2] != '/') then "//"
    else "/"
  }

  predicate IsAbsolute(text: string) {
    |text| > 0 && text[0] == '/'
  }

  function Join(parts: Parts): string {
    if |parts| == 0 then ""
    else if |parts| == 1 then parts[0]
    else parts[0] + "/" + Join(parts[1..])
  }

  /** `PurePosixPath(*parts).as_posix()` for a root and components. */
  function AsPosix(root: string, parts: Parts): string {
    if root == "" && |parts| == 0 then "." else root + Join(parts)
  }

  predicate LegalParts(parts: Parts) {
    forall i :: 0 <= i < |parts| ==> parts[i] != "" && parts[i] != "." && '/' !in parts[i]
  }

  lemma {:induction false} ComponentsOfPart(part: string, rest: string, current: string)
    requires '/' !in part && '/' !in current
    ensures ComponentsFrom(part + rest, current) == ComponentsFrom(rest, current + part)
    decreases |part|
  {
    if |part| == 0 {
      assert part + rest == rest && current + part == current;
    } else {
      assert (part + rest)[1..] == part[1..] + rest;
      assert part[0] in part;
      ComponentsOfPart(part[1..], rest, current + [part[0]]);
      assert current + [part[0]] + part[1..] == current + part;
    }
  }

  /** Joining legal components and reading them back gives the same components. */
  lemma {:induction false} JoinRoundTrip(parts: Parts)
    requires LegalParts(parts)
    ensures Components(Join(parts)) == parts
    decreases |parts|
  {
    if |parts| == 1 {
      ComponentsOfPart(parts[0], "", "");
      assert parts[0] + "" == parts[0] && "" + parts[0] == parts[0];
    } else if |parts| > 1 {
      var rest := Join(parts[1..]);
      ComponentsOfPart(parts[0], "/" + rest, "");
      assert parts[0] + "/" + rest == parts[0] + ("/" + rest) && "" + parts[0] == parts[0];
      assert ("/" + rest)[1..] == rest;
      JoinRoundTrip(parts[1..]);
      assert [parts[0]] + parts[1..] == parts;
    }
  }

  lemma {:induction false} ComponentsFromSlash(a: string, b: string, current: string)
    requires '/' !in current
    ensures ComponentsFrom(a + "/" + b, current) == ComponentsFrom(a, current) + ComponentsFrom(b, "")
    decreases |a|
  {
    if |a| == 0 {
      assert a + "/" + b == "/" + b && ("/" + b)[1..] == b;
    } else {
      assert (a + "/" + b)[1..] == a[1..] + "/" + b;
      if a[0] == '/' {
        ComponentsFromSlash(a[1..], b, "");
        assert Kept(current) + (ComponentsFrom(a[1..], "") + ComponentsFrom(b, ""))
            == Kept(current) + ComponentsFrom(a[1..], "") + ComponentsFrom(b, "");
      } else {
        ComponentsFromSlash(a[1..], b, current + [a[0]]);
      }
    }
  }

  /** A slash separates components, wherever it stands. */
  lemma ComponentsAroundSlash(a: string, b: string)
    ensures Components(a + "/" + b) == Components(a) + Components(b)
  {
    ComponentsFromSlash(a, b, "");
  }

  /** A text without one is a component itself, unless it is empty or a dot. */
  lemma ComponentAlone(text: string)
    requires '/' !in text
    ensures Components(text) == if text == "" || text == "." then [] else [text]
  {
    ComponentsOfPart(text, "", "");
    assert text + "" == text && "" + text == text;
  }

  // ----- Member names -----

  datatype MemberPath = MemberPath(normalized: string, absolute: bool, traversal: bool)

  /** `_member_path` */
  function ReadMemberPath(name: string): MemberPath {
    MemberPath(AsPosix(Root(name), Components(name)), IsAbsolute(name), ".." in Components(name))
  }

  // ----- Link targets -----

  datatype Resolved = Resolved(parts: Parts, escaped: bool)

  /** The loop of `_resolve_archive_link` over the components of a relative target. */
  function Walk(base: Parts, escaped: bool, target: Parts): Resolved
    decreases |target|
  {
    if |target| == 0 then Resolved(base, escaped)
    else if target[0] == ".." then
      if |base| == 0 then Walk(base, true, target[1..]) else Walk(base[..|base| - 1], escaped, target[1..])
    else Walk(base + [target[0]], escaped, target[1..])
  }

  /** `PurePosixPath(member).parent.parts`; the root of an absolute path is its first part. */
  function ParentParts(member: string): Parts {
    var parts := Components(member);
    var parent := if |parts| == 0 then [] else parts[..|parts| - 1];
    if Root(member) == "" then parent else [Root(member)] + parent
  }

  /** `PurePosixPath(*parts).as_posix()` for parts that may begin with a root. */
  function PosixOf(parts: Parts): string {
    if |parts| > 0 && IsAbsolute(parts[0]) then AsPosix(parts[0], parts[1..]) else AsPosix("", parts)
  }

  function BaseOf(member: string, hardlink: bool): Parts {
    if hardlink then [] else ParentParts(member)
  }

  datatype Target = Target(text: string, escaped: bool)

  /** `_resolve_archive_link`; an absolute target is returned as it is. */
  function ResolveLink(member: string, target: string, hardlink: bool): Target {
    if IsAbsolute(target) then Target(target, true)
    else
      var r := Walk(BaseOf(member, hardlink), false, Components(target));
      Target(PosixOf(r.parts), r.escaped)
  }

  /** The loop of `_resolve_archive_link`: `base` is pushed and popped in place of the directory reached. */
  method ResolveArchiveLink(member: string, target: string, hardlink: bool) returns (r: Target)
    ensures r == ResolveLink(member, target, hardlink)
  {
    if IsAbsolute(target) {
      return Target(target, true);
    }
    var base, escaped, parts := BaseOf(member, hardlink), false, Components(target);
    ghost var goal := Walk(base, escaped, parts);
    assert parts[0..] == parts;
    for index := 0 to |parts|
      invariant Walk(base, escaped, parts[index..]) == goal
    {
      var part := parts[index];
      assert parts[index..][0] == part && parts[index..][1..] == parts[index + 1..];
      if part == ".." {
        if |base| == 0 {
          escaped := true;
          continue;
        }
        base := base[..|base| - 1];
      } else {
        base := base + [part];
      }
    }
    return Target(PosixOf(base), escaped);
  }

  // ----- Escaping, independently: how high a prefix of the target climbs -----

  /** The height above the archive root after a path, counting downward steps and upward steps. */
  function Height(start: int, target: Parts): int {
    if |target| == 0 then start
    else Height(start, target[..|target| - 1]) + (if target[|target| - 1] == ".." then -1 else 1)
  }

  ghost predicate ClimbsAbove(start: nat, target: Parts) {
    exists k :: 0 <= k <= |target| && Height(start, target[..k]) < 0
  }

  lemma {:induction false} HeightFirst(start: int, target: Parts)
    requires |target| > 0
    ensures Height(start, target) == Height(start + (if target[0] == ".." then -1 else 1), target[1..])
    decreases |target|
  {
    var last := |target| - 1;
    if last == 0 {
      assert target[..0] == [] && target[1..] == [];
    } else {
      HeightFirst(start, target[..last]);
      assert target[..last][1..] == target[1..][..last - 1];
    }
  }

  lemma ClimbsStep(start: nat, target: Parts)
    requires |target| > 0 && (target[0] == ".." ==> start > 0)
    ensures ClimbsAbove(start, target) <==> ClimbsAbove(start + (if target[0] == ".." then -1 else 1), target[1..])
  {
    var next := start + (if target[0] == ".." then -1 else 1);
    if ClimbsAbove(start, target) {
      var k :| 0 <= k <= |target| && Height(start, target[..k]) < 0;
      assert k > 0;
      HeightFirst(start, target[..k]);
      assert target[..k][1..] == target[1..][..k - 1];
    }
    if ClimbsAbove(next, target[1..]) {
      var k :| 0 <= k <= |target[1..]| && Height(next, target[1..][..k]) < 0;
      HeightFirst(start, target[..k + 1]);
      assert target[..k + 1][1..] == target[1..][..k];
    }
  }

  lemma {:induction false} EscapedStays(base: Parts, target: Parts)
    ensures Walk(base, true, target).escaped
    decreases |target|
  {
    if |target| > 0 {
      if target[0] == ".." {
        EscapedStays(if |base| == 0 then base else base[..|base| - 1], target[1..]);
      } else {
        EscapedStays(base + [target[0]], target[1..]);
      }
    }
  }

  /** `escaped` is set exactly when some prefix of the target climbs above the archive root. */
  lemma {:induction false} EscapedExactly(base: Parts, target: Parts)
    ensures Walk(base, false, target).escaped <==> ClimbsAbove(|base|, target)
    decreases |target|
  {
    if |target| > 0 {
      if target[0] == ".." && |base| == 0 {
        EscapedStays(base, target[1..]);
        assert target[..1] == [target[0]] && [target[0]][..0] == [];
        assert Height(0, []) == 0;
        assert Height(0, target[..1]) == -1;
      } else {
        ClimbsStep(|base|, target);
        EscapedExactly(if target[0] == ".." then base[..|base| - 1] else base + [target[0]], target[1..]);
      }
    } else {
      assert target[..0] == [] && Height(|base|, []) == |base|;
    }
  }

  // ----- The normal form, independently: cancelling a name with the ".." after it -----

  /** `after` is `before` with one name and the ".." right after it taken out. */
  ghost predicate CancelsAt(before: Parts, after: Parts, i: int) {
    && 0 <= i && i + 1 < |before| && before[i] != ".." && before[i + 1] == ".."
    && after == before[..i] + before[i + 2..]
  }

  ghost predicate Cancels(before: Parts, after: Parts) {
    exists i :: CancelsAt(before, after, i)
  }

  /** Any number of cancellations. */
  ghost predicate Reduces(before: Parts, after: Parts)
    decreases |before|
  {
    before == after || exists middle :: |middle| < |before| && Cancels(before, middle) && Reduces(middle, after)
  }

  predicate DotFree(parts: Parts) {
    forall i :: 0 <= i < |parts| ==> parts[i] != ".."
  }

  lemma {:induction false} WalkAppend(base: Parts, escaped: bool, a: Parts, b: Parts)
    ensures Walk(base, escaped, a + b) ==
            Walk(Walk(base, escaped, a).parts, Walk(base, escaped, a).escaped, b)
    decreases |a|
  {
    if |a| == 0 {
      assert a + b == b;
    } else {
      assert (a + b)[1..] == a[1..] + b;
      if a[0] == ".." {
        if |base| == 0 {
          WalkAppend(base, true, a[1..], b);
        } else {
          WalkAppend(base[..|base| - 1], escaped, a[1..], b);
        }
      } else {
        WalkAppend(base + [a[0]], escaped, a[1..], b);
      }
    }
  }

  /** Walking a pair of a name and ".." changes nothing. */
  lemma WalkPair(base: Parts, escaped: bool, name: string)
    requires name != ".."
    ensures Walk(base, escaped, [name, ".."]) == Resolved(base, escaped)
  {
    assert [name, ".."][1..] == [".."] && [".."][1..] == [];
    assert (base + [name])[..|base|] == base;
    assert Walk(base, escaped, []) == Resolved(base, escaped);
    assert Walk(base + [name], escaped, [".."]) == Walk(base, escaped, []);
  }

  /** So cancelling keeps where the walk ends. */
  lemma CancelKeepsWalk(base: Parts, escaped: bool, before: Parts, after: Parts)
    requires Cancels(before, after)
    ensures Walk(base, escaped, before) == Walk(base, escaped, after)
  {
    var i :| CancelsAt(before, after, i);
    var pair := [before[i], ".."];
    assert before == before[..i] + pair + before[i + 2..];
    WalkAppend(base, escaped, before[..i] + pair, before[i + 2..]);
    WalkAppend(base, escaped, before[..i], pair);
    WalkAppend(base, escaped, before[..i], before[i + 2..]);
    var m := Walk(base, escaped, before[..i]);
    WalkPair(m.parts, m.escaped, before[i]);
  }

  lemma {:induction false} ReduceKeepsWalk(base: Parts, escaped: bool, before: Parts, after: Parts)
    requires Reduces(before, after)
    ensures Walk(base, escaped, before) == Walk(base, escaped, after)
    decreases |before|
  {
    if before != after {
      var middle :| |middle| < |before| && Cancels(before, middle) && Reduces(middle, after);
      CancelKeepsWalk(base, escaped, before, middle);
      ReduceKeepsWalk(base, escaped, middle, after);
    }
  }

  lemma {:induction false} WalkDotFree(base: Parts, escaped: bool, parts: Parts)
    requires DotFree(parts)
    ensures Walk(base, escaped, parts) == Resolved(base + parts, escaped)
    decreases |parts|
  {
    if |parts| == 0 {
      assert base + parts == base;
    } else {
      WalkDotFree(base + [parts[0]], escaped, parts[1..]);
      assert base + [parts[0]] + parts[1..] == base + parts;
    }
  }

  /** Uniqueness: every dot-free form that cancellation can reach is the result of the walk. */
  lemma NormalFormUnique(base: Parts, target: Parts, normal: Parts)
    requires DotFree(base) && DotFree(normal) && Reduces(base + target, normal)
    ensures Walk(base, false, target) == Resolved(normal, false)
  {
    ReduceKeepsWalk([], false, base + target, normal);
    WalkDotFree([], false, normal);
    WalkAppend([], false, base, target);
    WalkDotFree([], false, base);
    assert [] + base == base && [] + normal == normal;
  }

  /** Existence: without escaping, cancellation reaches the result of the walk, and it is dot-free. */
  lemma {:induction false} NormalFormReached(base: Parts, target: Parts)
    requires DotFree(base) && !Walk(base, false, target).escaped
    ensures DotFree(Walk(base, false, target).parts)
    ensures Reduces(base + target, Walk(base, false, target).parts)
    decreases |target|
  {
    if |target| == 0 {
      assert base + target == base;
    } else if target[0] == ".." {
      if |base| == 0 {
        EscapedStays(base, target[1..]);
      } else {
        var shorter := base[..|base| - 1];
        NormalFormReached(shorter, target[1..]);
        var i := |base| - 1;
        assert (base + target)[..i] + (base + target)[i + 2..] == shorter + target[1..];
        assert CancelsAt(base + target, shorter + target[1..], i);
      }
    } else {
      NormalFormReached(base + [target[0]], target[1..]);
      assert base + [target[0]] + target[1..] == base + target;
    }
  }

  // ----- The audit -----

  datatype Kind = File | Directory | Symlink | Hardlink | Other

  datatype Member = Member(name: string, kind: Kind, linkname: string)

  predicate IsLink(m: Member) { m.kind == Symlink || m.kind == Hardlink }

  datatype Finding =
    | AbsoluteMember(name: string) | Traversal(name: string) | OutsideRoot(name: string) | Unsupported(name: string)
    | Duplicate(name: string)
    | AbsoluteLink(name: string) | EscapingLink(name: string) | MissingTarget(name: string)

  predicate InsideRoot(normalized: string) {
    normalized == ARTIFACT_ROOT || ARTIFACT_ROOT + "/" <= normalized
  }

  /** The name lies in the root: relative, with ".next" as its first component. */
  predicate LiesInside(name: string) {
    (|name| == 0 || name[0] != '/') && |Components(name)| > 0 && Components(name)[0] == ".next"
  }

  lemma InsideBegins(text: string)
    requires InsideRoot(text)
    ensures |Components(text)| > 0 && Components(text)[0] == ".next"
  {
    ComponentAlone(".next");
    if text != ".next" {
      var rest := text[|".next/"|..];
      assert text == ".next/" + rest && ".next/" + rest == ".next" + "/" + rest;
      ComponentsAroundSlash(".next", rest);
    }
  }

  lemma JoinBegins(parts: Parts)
    requires LegalParts(parts) && |parts| > 0
    ensures InsideRoot(Join(parts)) <==> parts[0] == ".next"
  {
    JoinRoundTrip(parts);
    if InsideRoot(Join(parts)) {
      InsideBegins(Join(parts));
    }
    if parts[0] == ".next" && |parts| > 1 {
      assert Join(parts) == ".next" + "/" + Join(parts[1..]);
      assert ".next/" <= ".next" + "/" + Join(parts[1..]);
    }
  }

  lemma AbsoluteIsOutside(name: string)
    requires IsAbsolute(name)
    ensures !InsideRoot(ReadMemberPath(name).normalized)
  {
    var text := ReadMemberPath(name).normalized;
    assert Root(name) != "" && text[0] == '/';
  }

  lemma InsideExactly(name: string)
    ensures InsideRoot(ReadMemberPath(name).normalized) <==> LiesInside(name)
  {
    ComponentsAreLegal(name);
    if IsAbsolute(name) {
      AbsoluteIsOutside(name);
    } else if |Components(name)| > 0 {
      JoinBegins(Components(name));
      assert "" + Join(Components(name)) == Join(Components(name));
    }
  }

  /** A member is reported as outside the root exactly when its name is absolute or its first component, if it has one,
      is not ".next". */
  lemma OutsideRootExactly(m: Member)
    ensures OutsideRoot(m.name) in MemberFindings(m) <==> !LiesInside(m.name)
  {
    InsideExactly(m.name);
  }

  lemma NothingFoundOfMember(m: Member)
    ensures MemberFindings(m) == [] <==> MemberClean(m)
  {
    InsideExactly(m.name);
  }

  function Normalized(members: seq<Member>): (names: seq<string>)
    ensures |names| == |members|
  {
    seq(|members|, i requires 0 <= i < |members| => ReadMemberPath(members[i].name).normalized)
  }

  /** What is asked of a member: relative, in the root, without "..", and of a supported kind. */
  predicate MemberClean(m: Member) {
    LiesInside(m.name) && ".." !in Components(m.name) && m.kind in {File, Directory, Symlink, Hardlink}
  }

  predicate Unique(names: seq<string>) {
    forall i, j :: 0 <= i < j < |names| ==> names[i] != names[j]
  }

  /** A link is relative and resolves, without leaving the root on the way, to a member. */
  predicate LinkClean(names: seq<string>, m: Member) {
    var path := ReadMemberPath(m.name).normalized;
    var target := ResolveLink(path, m.linkname, m.kind == Hardlink);
    !IsAbsolute(m.linkname) && !target.escaped && target.text in names
  }

  /** What the audit is for. */
  predicate Clean(members: seq<Member>) {
    && (forall i :: 0 <= i < |members| ==> MemberClean(members[i]))
    && Unique(Normalized(members))
    && (forall i :: 0 <= i < |members| && IsLink(members[i]) ==> LinkClean(Normalized(members), members[i]))
  }

  datatype Counts = Counts(absoluteSymlinks: nat, escapingSymlinks: nat, absoluteHardlinks: nat, escapingHardlinks: nat)

  function MemberFindings(m: Member): seq<Finding> {
    var path := ReadMemberPath(m.name);
    (if path.absolute then [AbsoluteMember(m.name)] else [])
    + (if path.traversal then [Traversal(m.name)] else [])
    + (if !InsideRoot(path.normalized) then [OutsideRoot(m.name)] else [])
    + (if m.kind == Other then [Unsupported(m.name)] else [])
  }

  function LinkFindings(names: seq<string>, m: Member): seq<Finding> {
    var path := ReadMemberPath(m.name).normalized;
    var target := ResolveLink(path, m.linkname, m.kind == Hardlink);
    if IsAbsolute(m.linkname) then [AbsoluteLink(path)]
    else if target.escaped then [EscapingLink(path)]
    else if target.text !in names then [MissingTarget(path)]
    else []
  }

  /** The names that occur more than once, each reported at its first occurrence. */
  function Duplicates(names: seq<string>, from: nat): seq<Finding>
    requires from <= |names|
    decreases |names| - from
  {
    if from == |names| then []
    else
      (if names[from] in names[from + 1..] && names[from] !in names[..from] then [Duplicate(names[from])] else [])
      + Duplicates(names, from + 1)
  }

  lemma {:induction false} DuplicatesExactly(names: seq<string>, from: nat)
    requires from <= |names|
    ensures Duplicates(names, from) == [] <==>
            forall i :: from <= i < |names| && names[i] in names[i + 1..] ==> names[i] in names[..i]
    decreases |names| - from
  {
    if from < |names| {
      DuplicatesExactly(names, from + 1);
    }
  }

  lemma {:induction false} FirstOccurrence(names: seq<string>, i: nat)
    requires i < |names|
    ensures exists k :: 0 <= k <= i && names[k] == names[i] && names[k] !in names[..k]
    decreases i
  {
    if names[i] in names[..i] {
      var k :| 0 <= k < i && names[k] == names[i];
      FirstOccurrence(names, k);
    }
  }

  /** No duplicates are reported exactly when all names differ. */
  lemma NoDuplicatesExactly(names: seq<string>)
    ensures Duplicates(names, 0) == [] <==> Unique(names)
  {
    DuplicatesExactly(names, 0);
    if !Unique(names) {
      var i, j :| 0 <= i < j < |names| && names[i] == names[j];
      FirstOccurrence(names, i);
      var k :| 0 <= k <= i && names[k] == names[i] && names[k] !in names[..k];
      assert names[k + 1..][j - k - 1] == names[k];
    }
    if Duplicates(names, 0) != [] {
      var i :| 0 <= i < |names| && names[i] in names[i + 1..] && names[i] !in names[..i];
      var j :| 0 <= j < |names[i + 1..]| && names[i + 1..][j] == names[i];
      assert names[i + 1 + j] == names[i];
    }
  }

  /** How many of the first `n` members are links of the kind with the property. */
  function CountLinks(members: seq<Member>, kind: Kind, bad: Member -> bool, n: nat): nat
    requires n <= |members|
  {
    if n == 0 then 0
    else CountLinks(members, kind, bad, n - 1) + (if members[n - 1].kind == kind && bad(members[n - 1]) then 1 else 0)
  }

  function AbsoluteTarget(m: Member): bool { IsAbsolute(m.linkname) }

  /** What the resolver reports as escaping; an absolute target always is. */
  function EscapingTarget(m: Member): bool {
    ResolveLink(ReadMemberPath(m.name).normalized, m.linkname, m.kind == Hardlink).escaped
  }

  function LinkCounts(members: seq<Member>, n: nat): Counts
    requires n <= |members|
  {
    Counts(CountLinks(members, Symlink, AbsoluteTarget, n), CountLinks(members, Symlink, EscapingTarget, n),
           CountLinks(members, Hardlink, AbsoluteTarget, n), CountLinks(members, Hardlink, EscapingTarget, n))
  }

  function Flatten(parts: seq<seq<Finding>>): seq<Finding> {
    if |parts| == 0 then [] else Flatten(parts[..|parts| - 1]) + parts[|parts| - 1]
  }

  lemma FlattenStep(parts: seq<seq<Finding>>, i: nat)
    requires i < |parts|
    ensures Flatten(parts[..i + 1]) == Flatten(parts[..i]) + parts[i]
  {
    assert parts[..i + 1][..i] == parts[..i];
  }

  lemma {:induction false} FlattenHas(parts: seq<seq<Finding>>, f: Finding)
    ensures f in Flatten(parts) <==> exists i :: 0 <= i < |parts| && f in parts[i]
  {
    if |parts| > 0 {
      var rest := parts[..|parts| - 1];
      FlattenHas(rest, f);
      if i :| 0 <= i < |parts| && f in parts[i] {
        assert i < |rest| ==> f in rest[i];
      }
    }
  }

  lemma {:induction false} FlattenEmpty(parts: seq<seq<Finding>>)
    ensures Flatten(parts) == [] <==> forall i :: 0 <= i < |parts| ==> parts[i] == []
  {
    if |parts| > 0 {
      FlattenEmpty(parts[..|parts| - 1]);
      assert forall i :: 0 <= i < |parts| - 1 ==> parts[i] == parts[..|parts| - 1][i];
    }
  }

  /** The findings about each member by itself. */
  function OfMembers(members: seq<Member>): (parts: seq<seq<Finding>>)
    ensures |parts| == |members|
  {
    seq(|members|, i requires 0 <= i < |members| => MemberFindings(members[i]))
  }

  /** The findings about each link. */
  function OfLinks(members: seq<Member>, names: seq<string>): (parts: seq<seq<Finding>>)
    ensures |parts| == |members|
  {
    seq(|members|, i requires 0 <= i < |members| => if IsLink(members[i]) then LinkFindings(names, members[i]) else [])
  }

  /** Everything the audit reports, in its order. */
  function Findings(members: seq<Member>): seq<Finding> {
    var names := Normalized(members);
    Flatten(OfMembers(members)) + Duplicates(names, 0) + Flatten(OfLinks(members, names))
  }

  lemma {:induction false} DuplicatesFound(names: seq<string>, from: nat, f: Finding)
    requires from <= |names|
    ensures f in Duplicates(names, from) <==>
            exists i :: from <= i < |names| && names[i] in names[i + 1..] && names[i] !in names[..i]
                        && f == Duplicate(names[i])
    decreases |names| - from
  {
    if from < |names| {
      DuplicatesFound(names, from + 1, f);
    }
  }

  ghost predicate OccursTwice(names: seq<string>, name: string) {
    exists i, j :: 0 <= i < j < |names| && names[i] == name && names[j] == name
  }

  /** A name is reported as a duplicate exactly when two members have it. */
  lemma DuplicateExactly(names: seq<string>, name: string)
    ensures Duplicate(name) in Duplicates(names, 0) <==> OccursTwice(names, name)
  {
    DuplicatesFound(names, 0, Duplicate(name));
    if OccursTwice(names, name) {
      var i, j :| 0 <= i < j < |names| && names[i] == name && names[j] == name;
      FirstOccurrence(names, i);
      var k :| 0 <= k <= i && names[k] == names[i] && names[k] !in names[..k];
      assert names[k + 1..][j - k - 1] == names[k];
    }
    if Duplicate(name) in Duplicates(names, 0) {
      var i :| 0 <= i < |names| && names[i] in names[i + 1..] && Duplicate(name) == Duplicate(names[i]);
      var j :| 0 <= j < |names[i + 1..]| && names[i + 1..][j] == names[i];
      assert names[i + 1 + j] == name;
    }
  }

  /** What each finding claims about the member it names. */
  ghost predicate Justified(members: seq<Member>, m: Member, f: Finding) {
    var path := ReadMemberPath(m.name).normalized;
    var target := ResolveLink(path, m.linkname, m.kind == Hardlink);
    match f
    case AbsoluteMember(name) => name == m.name && |name| > 0 && name[0] == '/'
    case Traversal(name) => name == m.name && ".." in Components(name)
    case OutsideRoot(name) => name == m.name && !LiesInside(name)
    case Unsupported(name) => name == m.name && m.kind !in {File, Directory, Symlink, Hardlink}
    case Duplicate(name) => name == path && OccursTwice(Normalized(members), name)
    case AbsoluteLink(name) => name == path && IsLink(m) && IsAbsolute(m.linkname)
    case EscapingLink(name) => name == path && IsLink(m) && !IsAbsolute(m.linkname)
                               && ClimbsAbove(|BaseOf(path, m.kind == Hardlink)|, Components(m.linkname))
    case MissingTarget(name) => name == path && IsLink(m) && !IsAbsolute(m.linkname)
                                && !ClimbsAbove(|BaseOf(path, m.kind == Hardlink)|, Components(m.linkname))
                                && forall k :: 0 <= k < |members| ==>
                                   target.text != ReadMemberPath(members[k].name).normalized
  }

  lemma NameRecorded(members: seq<Member>, name: string)
    ensures name in Normalized(members) <==>
            exists k :: 0 <= k < |members| && name == ReadMemberPath(members[k].name).normalized
  {
    var names := Normalized(members);
    if name in names {
      var k :| 0 <= k < |names| && names[k] == name;
      assert name == ReadMemberPath(members[k].name).normalized;
    }
    if k :| 0 <= k < |members| && name == ReadMemberPath(members[k].name).normalized {
      assert names[k] == name;
    }
  }

  predicate AboutLink(f: Finding) {
    f.AbsoluteLink? || f.EscapingLink? || f.MissingTarget?
  }

  lemma MemberFindingsJustified(members: seq<Member>, m: Member, f: Finding)
    ensures f in MemberFindings(m) <==> !f.Duplicate? && !AboutLink(f) && Justified(members, m, f)
  {
    InsideExactly(m.name);
  }

  lemma LinkFindingsJustified(members: seq<Member>, m: Member, f: Finding)
    ensures IsLink(m) && f in LinkFindings(Normalized(members), m) <==> AboutLink(f) && Justified(members, m, f)
  {
    var path := ReadMemberPath(m.name).normalized;
    EscapedExactly(BaseOf(path, m.kind == Hardlink), Components(m.linkname));
    NameRecorded(members, ResolveLink(path, m.linkname, m.kind == Hardlink).text);
  }

  lemma OwnFindingsJustified(members: seq<Member>, m: Member, f: Finding)
    ensures f in MemberFindings(m) || (IsLink(m) && f in LinkFindings(Normalized(members), m)) <==>
            !f.Duplicate? && Justified(members, m, f)
  {
    MemberFindingsJustified(members, m, f);
    LinkFindingsJustified(members, m, f);
  }

  /** A finding about single members comes from one of them. */
  lemma OwnFindingsFound(members: seq<Member>, f: Finding)
    ensures f in Flatten(OfMembers(members)) || f in Flatten(OfLinks(members, Normalized(members)))
            <==> exists i :: 0 <= i < |members| && !f.Duplicate? && Justified(members, members[i], f)
  {
    var own, links := OfMembers(members), OfLinks(members, Normalized(members));
    FlattenHas(own, f);
    FlattenHas(links, f);
    forall i | 0 <= i < |members|
      ensures f in own[i] || f in links[i] <==> !f.Duplicate? && Justified(members, members[i], f)
    {
      OwnFindingsJustified(members, members[i], f);
    }
  }

  /** The audit reports a finding exactly when some member justifies it. */
  lemma FindingsExactly(members: seq<Member>, f: Finding)
    ensures f in Findings(members) <==> exists i :: 0 <= i < |members| && Justified(members, members[i], f)
  {
    var names := Normalized(members);
    OwnFindingsFound(members, f);
    DuplicatesFound(names, 0, f);
    if f.Duplicate? {
      DuplicateExactly(names, f.name);
      if OccursTwice(names, f.name) {
        var i, j :| 0 <= i < j < |names| && names[i] == f.name && names[j] == f.name;
        assert Justified(members, members[i], f);
      }
    }
  }

  /** So the audit reports nothing exactly when the archive is clean. */
  lemma NothingFoundExactly(members: seq<Member>)
    ensures Findings(members) == [] <==> Clean(members)
  {
    var names := Normalized(members);
    NoDuplicatesExactly(names);
    MembersPassExactly(members);
    LinksPassExactly(members, names);
  }

  lemma MembersPassExactly(members: seq<Member>)
    ensures Flatten(OfMembers(members)) == [] <==> forall i :: 0 <= i < |members| ==> MemberClean(members[i])
  {
    FlattenEmpty(OfMembers(members));
    forall i | 0 <= i < |members| ensures OfMembers(members)[i] == [] <==> MemberClean(members[i]) {
      NothingFoundOfMember(members[i]);
    }
  }

  lemma LinksPassExactly(members: seq<Member>, names: seq<string>)
    ensures Flatten(OfLinks(members, names)) == [] <==>
            forall i :: 0 <= i < |members| && IsLink(members[i]) ==> LinkClean(names, members[i])
  {
    FlattenEmpty(OfLinks(members, names));
    forall i | 0 <= i < |members|
      ensures OfLinks(members, names)[i] == [] <==> (IsLink(members[i]) ==> LinkClean(names, members[i]))
    {
    }
  }

  /** The findings about one member, as they are appended. */
  method AuditMember(member: Member) returns (path: MemberPath, errors: seq<Finding>)
    ensures path == ReadMemberPath(member.name) && errors == MemberFindings(member)
  {
    path, errors := ReadMemberPath(member.name), [];
    if path.absolute {
      errors := errors + [AbsoluteMember(member.name)];
    }
    if path.traversal {
      errors := errors + [Traversal(member.name)];
    }
    if !InsideRoot(path.normalized) {
      errors := errors + [OutsideRoot(member.name)];
    }
    if member.kind == Other {
      errors := errors + [Unsupported(member.name)];
    }
  }

  /** What the first pass has after one more member. */
  lemma FirstPassStep(members: seq<Member>, index: nat)
    requires index < |members|
    ensures Normalized(members)[..index + 1]
            == Normalized(members)[..index] + [ReadMemberPath(members[index].name).normalized]
    ensures Flatten(OfMembers(members)[..index + 1])
            == Flatten(OfMembers(members)[..index]) + MemberFindings(members[index])
  {
    FlattenStep(OfMembers(members), index);
  }

  /** The first pass of `audit_archive`: names, and findings about single members. */
  method AuditMembers(members: seq<Member>) returns (names: seq<string>, errors: seq<Finding>)
    ensures names == Normalized(members) && errors == Flatten(OfMembers(members))
  {
    names, errors := [], [];
    ghost var all, parts := Normalized(members), OfMembers(members);
    for index := 0 to |members|
      invariant names == all[..index]
      invariant errors == Flatten(parts[..index])
    {
      FirstPassStep(members, index);
      var path, own := AuditMember(members[index]);
      names := names + [path.normalized];
      errors := errors + own;
    }
    assert all[..|members|] == all && parts[..|members|] == parts;
  }

  function Counted(c: Counts, symlink: bool, absolute: bool, escaped: bool): Counts {
    var a, e := if absolute then 1 else 0, if escaped then 1 else 0;
    if symlink then c.(absoluteSymlinks := c.absoluteSymlinks + a, escapingSymlinks := c.escapingSymlinks + e)
    else c.(absoluteHardlinks := c.absoluteHardlinks + a, escapingHardlinks := c.escapingHardlinks + e)
  }

  lemma CountedStep(members: seq<Member>, n: nat)
    requires n < |members|
    ensures LinkCounts(members, n + 1) ==
            if IsLink(members[n])
            then Counted(LinkCounts(members, n), members[n].kind == Symlink,
                         AbsoluteTarget(members[n]), EscapingTarget(members[n]))
            else LinkCounts(members, n)
  {
  }

  /** The second pass: findings about links, and the counters. */
  method AuditLinks(members: seq<Member>, names: seq<string>) returns (errors: seq<Finding>, counts: Counts)
    requires names == Normalized(members)
    ensures errors == Flatten(OfLinks(members, names))
    ensures counts == LinkCounts(members, |members|)
  {
    errors, counts := [], Counts(0, 0, 0, 0);
    ghost var parts := OfLinks(members, names);
    for index := 0 to |members|
      invariant errors == Flatten(parts[..index])
      invariant counts == LinkCounts(members, index)
    {
      var member := members[index];
      FlattenStep(parts, index);
      CountedStep(members, index);
      if !IsLink(member) {
        continue;
      }
      var absolute := IsAbsolute(member.linkname);
      var resolved := ResolveArchiveLink(names[index], member.linkname, member.kind == Hardlink);
      counts := Counted(counts, member.kind == Symlink, absolute, resolved.escaped);
      if absolute {
        errors := errors + [AbsoluteLink(names[index])];
      } else if resolved.escaped {
        errors := errors + [EscapingLink(names[index])];
      } else if resolved.text !in names {
        errors := errors + [MissingTarget(names[index])];
      }
    }
    assert parts[..|members|] == parts;
  }

  /** `audit_archive`: what is found, which is nothing exactly when the archive is clean. */
  method AuditArchive(members: seq<Member>) returns (errors: seq<Finding>, counts: Counts)
    ensures errors == Findings(members) && (errors == [] <==> Clean(members))
    ensures counts == LinkCounts(members, |members|)
  {
    var names, memberErrors := AuditMembers(members);
    var linkErrors;
    linkErrors, counts := AuditLinks(members, names);
    errors := memberErrors + Duplicates(names, 0) + linkErrors;
    NothingFoundExactly(members);
  }

  // ----- What a passing audit gives -----

  /** Where a link of the archive leads by the audit's own reading of its target as text; other members stay. */
  function Follow(members: seq<Member>, i: nat): string
    requires i < |members|
  {
    var m := members[i];
    var path := ReadMemberPath(m.name).normalized;
    if IsLink(m) then ResolveLink(path, m.linkname, m.kind == Hardlink).text else path
  }

  /** `path` lists members, each the place where the one before leads. */
  ghost predicate Follows(members: seq<Member>, path: seq<string>) {
    forall k :: 0 < k < |path| ==>
      exists i :: 0 <= i < |members| && Normalized(members)[i] == path[k - 1] && path[k] == Follow(members, i)
  }

  /** Following links in this reading any number of times from a member of a clean archive stays among its members,
      inside the root. */
  lemma {:induction false} LinksStayInside(members: seq<Member>, path: seq<string>, k: nat)
    requires Clean(members) && Follows(members, path) && k < |path| && path[0] in Normalized(members)
    ensures path[k] in Normalized(members) && InsideRoot(path[k])
    decreases k
  {
    if k > 0 {
      LinksStayInside(members, path, k - 1);
      var i :| 0 <= i < |members| && Normalized(members)[i] == path[k - 1] && path[k] == Follow(members, i);
      FollowStays(members, i);
    }
    MembersAreInside(members, path[k]);
  }

  lemma FollowStays(members: seq<Member>, i: nat)
    requires Clean(members) && i < |members|
    ensures Follow(members, i) in Normalized(members)
  {
    var names := Normalized(members);
    assert names[i] in names;
    assert IsLink(members[i]) ==> LinkClean(names, members[i]);
  }

  lemma MembersAreInside(members: seq<Member>, name: string)
    requires Clean(members) && name in Normalized(members)
    ensures InsideRoot(name)
  {
    var j :| 0 <= j < |members| && Normalized(members)[j] == name;
    assert MemberClean(members[j]);
    InsideExactly(members[j].name);
  }

  lemma ComponentsAreLegal(text: string)
    ensures LegalParts(Components(text))
  {
    forall i | 0 <= i < |Components(text)|
      ensures Components(text)[i] != "" && Components(text)[i] != "." && '/' !in Components(text)[i]
    {
      assert Components(text)[i] in Components(text);
    }
  }

  /** A clean member's normalized name reads back as its own components, so resolving from the text or from the
      components is the same. */
  lemma NormalizedReadsBack(name: string)
    requires !IsAbsolute(name)
    ensures Components(ReadMemberPath(name).normalized) == Components(name)
  {
    var parts := Components(name);
    ComponentsAreLegal(name);
    if |parts| == 0 {
      assert ComponentsFrom(".", "") == [] by {
        assert "."[1..] == "" && "" + ['.'] == ".";
        assert ComponentsFrom("", ".") == [];
      }
    } else {
      JoinRoundTrip(parts);
      assert "" + Join(parts) == Join(parts);
    }
  }

  /** The one dot-free path that cancellation can reach. */
  ghost predicate IsNormalForm(path: Parts, normal: Parts) {
    && DotFree(normal) && Reduces(path, normal)
    && forall other :: DotFree(other) && Reduces(path, other) ==> other == normal
  }

  /** A link of a clean archive: its target cancels down to exactly one dot-free path, and that is a member. */
  lemma CleanLinkTarget(members: seq<Member>, i: nat)
    requires Clean(members) && i < |members| && IsLink(members[i])
    ensures var m := members[i];
            var base := BaseOf(ReadMemberPath(m.name).normalized, m.kind == Hardlink);
            var target := Components(m.linkname);
            && !ClimbsAbove(|base|, target)
            && exists normal :: IsNormalForm(base + target, normal) && PosixOf(normal) in Normalized(members)
  {
    var m := members[i];
    var path := ReadMemberPath(m.name).normalized;
    var base := BaseOf(path, m.kind == Hardlink);
    var target := Components(m.linkname);
    assert MemberClean(m) && LinkClean(Normalized(members), m);
    EscapedExactly(base, target);
    NormalizedReadsBack(m.name);
    assert DotFree(base);
    var normal := Walk(base, false, target).parts;
    NormalFormReached(base, target);
    forall other | DotFree(other) && Reduces(base + target, other) ensures other == normal {
      NormalFormUnique(base, target, other);
    }
    assert IsNormalForm(base + target, normal);
  }
}
