/** Links as the file system follows them once the archive is unpacked. The audit resolves link targets as text; on disk
    a symlink on the way to a target is replaced by its own target first, which can lead elsewhere. */
module ArchiveOnDisk {
  import opened Options
  import opened ArchiveAudit
  import opened ArchivePaths

  // ----- Physical resolution -----

  /** The target of the symlink member with this path, if there is one. */
  function SymlinkAt(members: seq<Member>, here: Parts): Option<string> {
    if |members| == 0 then None
    else if members[0].kind == Symlink && Components(members[0].name) == here then Some(members[0].linkname)
    else SymlinkAt(members[1..], here)
  }

  datatype Landing = At(parts: Parts) | Outside | TooManyLinks

  /** Walking `rest` from the directory `dir`, both below the place of unpacking; at most `budget` symlinks are
      followed, and the last name is where the walk lands, not followed itself. */
  function Land(members: seq<Member>, dir: Parts, rest: Parts, budget: nat): Landing
    decreases budget, |rest|
  {
    if |rest| == 0 then At(dir)
    else if rest[0] == ".." then
      if |dir| == 0 then Outside else Land(members, dir[..|dir| - 1], rest[1..], budget)
    else
      var here := dir + [rest[0]];
      var link := SymlinkAt(members, here);
      if |rest| == 1 || link.None? then Land(members, here, rest[1..], budget)
      else if IsAbsolute(link.value) then Outside
      else if budget == 0 then TooManyLinks
      else Land(members, dir, Components(link.value) + rest[1..], budget - 1)
  }

  /** No name on the way, before the last, is a symlink member. */
  ghost predicate MeetsNoLink(members: seq<Member>, dir: Parts, rest: Parts)
    decreases |rest|
  {
    |rest| > 0 ==>
      if rest[0] == ".." then |dir| > 0 ==> MeetsNoLink(members, dir[..|dir| - 1], rest[1..])
      else
        && (|rest| > 1 ==> SymlinkAt(members, dir + [rest[0]]).None?)
        && MeetsNoLink(members, dir + [rest[0]], rest[1..])
  }

  /** Where no symlink is met the file system and the audit agree, on the place and on escaping. */
  lemma {:induction false} PhysicalIsLexical(members: seq<Member>, dir: Parts, rest: Parts, budget: nat)
    requires MeetsNoLink(members, dir, rest)
    ensures var w := Walk(dir, false, rest);
            Land(members, dir, rest, budget) == if w.escaped then Outside else At(w.parts)
    decreases |rest|
  {
    if |rest| > 0 {
      if rest[0] != ".." {
        PhysicalIsLexical(members, dir + [rest[0]], rest[1..], budget);
      } else if |dir| > 0 {
        PhysicalIsLexical(members, dir[..|dir| - 1], rest[1..], budget);
      } else {
        EscapedStays([], rest[1..]);
      }
    }
  }

  // ----- The links of an archive -----

  /** The whole way to a link's target, from the place of unpacking. */
  function WayTo(m: Member): Parts {
    BaseOf(ReadMemberPath(m.name).normalized, m.kind == Hardlink) + Components(m.linkname)
  }

  function OnDisk(members: seq<Member>, m: Member, budget: nat): Landing {
    if IsAbsolute(m.linkname) then Outside else Land(members, [], WayTo(m), budget)
  }

  /** A link of a clean archive whose way meets no symlink leads to a member on disk, the one the audit resolved. */
  lemma CleanLinkLands(members: seq<Member>, i: nat, budget: nat)
    requires Clean(members) && i < |members| && IsLink(members[i])
    requires MeetsNoLink(members, [], WayTo(members[i]))
    ensures OnDisk(members, members[i], budget).At?
    ensures PosixOf(OnDisk(members, members[i], budget).parts) == Follow(members, i)
    ensures Follow(members, i) in Normalized(members) && InsideRoot(Follow(members, i))
  {
    var m := members[i];
    var base := BaseOf(ReadMemberPath(m.name).normalized, m.kind == Hardlink);
    assert MemberClean(m) && LinkClean(Normalized(members), m);
    NormalizedReadsBack(m.name);
    assert DotFree(base);
    WalkAppend([], false, base, Components(m.linkname));
    WalkDotFree([], false, base);
    assert [] + base == base;
    PhysicalIsLexical(members, [], WayTo(m), budget);
    FollowStays(members, i);
    MembersAreInside(members, Follow(members, i));
  }

  /** What can be asked of an archive beside the audit: that no link's way meets a symlink. */
  ghost predicate NoLinkBehindLink(members: seq<Member>) {
    forall i :: 0 <= i < |members| && IsLink(members[i]) ==> MeetsNoLink(members, [], WayTo(members[i]))
  }

  /** The link member `i`, named `place`, leads to `target` on disk. */
  ghost predicate LeadsTo(members: seq<Member>, budget: nat, i: nat, place: string, target: string) {
    && i < |members| && IsLink(members[i]) && Normalized(members)[i] == place
    && OnDisk(members, members[i], budget).At? && target == PosixOf(OnDisk(members, members[i], budget).parts)
  }

  ghost predicate LinkLeads(members: seq<Member>, budget: nat, place: string, target: string) {
    exists i: nat :: LeadsTo(members, budget, i, place, target)
  }

  /** `path` lists places on disk, each where a link at the one before leads. */
  ghost predicate FollowsOnDisk(members: seq<Member>, path: seq<string>, budget: nat) {
    forall k :: 0 < k < |path| ==> LinkLeads(members, budget, path[k - 1], path[k])
  }

  lemma LeadsInside(members: seq<Member>, budget: nat, i: nat, place: string, target: string)
    requires Clean(members) && NoLinkBehindLink(members) && LeadsTo(members, budget, i, place, target)
    ensures target in Normalized(members) && InsideRoot(target)
  {
    CleanLinkLands(members, i, budget);
  }

  /** Then no link leads outside, and following links any number of times on disk stays among the members. */
  lemma {:induction false} LinksStayInsideOnDisk(members: seq<Member>, path: seq<string>, k: nat, budget: nat)
    requires Clean(members) && NoLinkBehindLink(members) && FollowsOnDisk(members, path, budget)
    requires k < |path| && path[0] in Normalized(members)
    ensures path[k] in Normalized(members) && InsideRoot(path[k])
  {
    if k > 0 {
      var i: nat :| LeadsTo(members, budget, i, path[k - 1], path[k]);
      LeadsInside(members, budget, i, path[k - 1], path[k]);
    } else {
      MembersAreInside(members, path[0]);
    }
  }

  /** So the places they lead to have ".next" as their first component. */
  lemma LinksLeadInsideOnDisk(members: seq<Member>, path: seq<string>, k: nat, budget: nat)
    requires Clean(members) && NoLinkBehindLink(members) && FollowsOnDisk(members, path, budget)
    requires k < |path| && path[0] in Normalized(members)
    ensures LiesInside(path[k])
  {
    LinksStayInsideOnDisk(members, path, k, budget);
    NameOfMemberLiesInside(members, path[k]);
  }

  lemma NoLinkLeadsOutside(members: seq<Member>, i: nat, budget: nat)
    requires Clean(members) && NoLinkBehindLink(members) && i < |members| && IsLink(members[i])
    ensures OnDisk(members, members[i], budget).At?
  {
    CleanLinkLands(members, i, budget);
  }

  // ----- An archive that passes and leads outside -----

  lemma JoinIsRelative(parts: Parts)
    requires LegalParts(parts) && |parts| > 0
    ensures !IsAbsolute(Join(parts)) && Components(Join(parts)) == parts
    ensures PosixOf(parts) == Join(parts)
    ensures ReadMemberPath(Join(parts)) == MemberPath(Join(parts), false, ".." in parts)
  {
    JoinRoundTrip(parts);
    assert parts[0][0] in parts[0];
    assert Join(parts)[0] == parts[0][0];
    assert "" + Join(parts) == Join(parts);
  }

  predicate UnderRoot(parts: Parts) {
    LegalParts(parts) && |parts| > 0 && parts[0] == ARTIFACT_ROOT && ".." !in parts
  }

  function Named(parts: Parts, kind: Kind, target: Parts): Member {
    Member(Join(parts), kind, Join(target))
  }

  /** Distinct paths under the root, and the members at them. */
  ghost predicate LieAt(members: seq<Member>, paths: seq<Parts>) {
    && |members| == |paths|
    && (forall i :: 0 <= i < |paths| ==>
          UnderRoot(paths[i]) && members[i].name == Join(paths[i]) && members[i].kind != Other)
    && forall i, j :: 0 <= i < j < |paths| ==> paths[i] != paths[j]
  }

  lemma InsideTop(parts: Parts)
    requires UnderRoot(parts)
    ensures InsideRoot(Join(parts))
  {
    if |parts| > 1 {
      assert Join(parts) == ARTIFACT_ROOT + "/" + Join(parts[1..]);
    }
  }

  /** How the audit reads such a name. */
  lemma ReadsName(parts: Parts)
    requires UnderRoot(parts)
    ensures ReadMemberPath(Join(parts)) == MemberPath(Join(parts), false, false)
    ensures Components(Join(parts)) == parts && PosixOf(parts) == Join(parts) && InsideRoot(Join(parts))
  {
    JoinIsRelative(parts);
    InsideTop(parts);
  }

  lemma MembersPass(members: seq<Member>, paths: seq<Parts>)
    requires LieAt(members, paths)
    ensures |Normalized(members)| == |paths|
    ensures forall i :: 0 <= i < |members| ==> MemberClean(members[i]) && Normalized(members)[i] == Join(paths[i])
    ensures Unique(Normalized(members))
  {
    forall i | 0 <= i < |members|
      ensures MemberClean(members[i]) && Normalized(members)[i] == Join(paths[i])
    {
      ReadsName(paths[i]);
    }
    forall i, j | 0 <= i < j < |members| ensures Normalized(members)[i] != Normalized(members)[j] {
      JoinRoundTrip(paths[i]);
      JoinRoundTrip(paths[j]);
    }
  }

  /** The symlink `i` has this target, which the audit resolves to the path `j`. */
  ghost predicate LinkAt(members: seq<Member>, paths: seq<Parts>, i: nat, target: Parts, j: nat) {
    && i < |members| && j < |paths| && |members| == |paths| && |paths[i]| > 0 && members[i].kind == Symlink
    && LegalParts(target) && |target| > 0 && members[i].linkname == Join(target)
    && Walk(paths[i][..|paths[i]| - 1], false, target) == Resolved(paths[j], false)
  }

  lemma LinkPasses(members: seq<Member>, paths: seq<Parts>, i: nat, target: Parts, j: nat)
    requires LieAt(members, paths) && LinkAt(members, paths, i, target, j)
    ensures LinkClean(Normalized(members), members[i]) && Follow(members, i) == Join(paths[j])
    ensures !IsAbsolute(members[i].linkname) && WayTo(members[i]) == paths[i][..|paths[i]| - 1] + target
  {
    MembersPass(members, paths);
    ReadsName(paths[i]);
    ReadsName(paths[j]);
    JoinIsRelative(target);
    var m := members[i];
    assert Root(Join(paths[i])) == "";
    assert BaseOf(Join(paths[i]), false) == paths[i][..|paths[i]| - 1];
    assert ResolveLink(Join(paths[i]), m.linkname, false) == Target(Join(paths[j]), false);
    assert Normalized(members)[j] == Join(paths[j]);
  }

  // ----- The archive -----

  const UP2: Parts := ["..", ".."]

  /** The names of two directories and two symlinks. */
  datatype Names = Names(a: string, b: string, up: string, bad: string)

  predicate LegalName(name: string) {
    name != "" && name != "." && name != ".." && '/' !in name
  }

  predicate LegalNames(n: Names) {
    LegalName(n.a) && LegalName(n.b) && LegalName(n.up) && LegalName(n.bad) && n.up != n.bad
  }

  /** The directories `.next`, `.next/a` and `.next/a/b`, with the symlinks `up` and `bad` in the last. */
  function Paths(root: string, n: Names): seq<Parts> {
    [[root], [root, n.a], [root, n.a, n.b], [root, n.a, n.b, n.up], [root, n.a, n.b, n.bad]]
  }

  /** `up` has the target `../..` and `bad` the target `up/../..`. */
  function Members(root: string, n: Names): seq<Member> {
    var paths := Paths(root, n);
    [Named(paths[0], Directory, []), Named(paths[1], Directory, []), Named(paths[2], Directory, []),
     Named(paths[3], Symlink, UP2), Named(paths[4], Symlink, [n.up] + UP2)]
  }

  function Archive(n: Names): seq<Member> {
    Members(ARTIFACT_ROOT, n)
  }

  lemma UpResolves(x: string, y: string, z: string)
    ensures Walk([x, y, z], false, UP2) == Resolved([x], false)
  {
    assert UP2[1..] == [".."] && [".."][1..] == [];
    assert [x, y, z][..2] == [x, y] && [x, y][..1] == [x];
    assert Walk([x, y], false, [".."]) == Walk([x], false, []);
  }

  lemma BadResolves(x: string, y: string, z: string, u: string)
    requires u != ".."
    ensures Walk([x, y, z], false, [u] + UP2) == Resolved([x, y], false)
  {
    assert ([u] + UP2)[1..] == UP2 && UP2[1..] == [".."] && [".."][1..] == [];
    assert [x, y, z] + [u] == [x, y, z, u] && [x, y, z, u][..3] == [x, y, z] && [x, y, z][..2] == [x, y];
    assert Walk([x, y, z], false, [".."]) == Walk([x, y], false, []);
    assert Walk([x, y, z, u], false, UP2) == Walk([x, y, z], false, [".."]);
  }

  lemma PathsAreUnderRoot(root: string, n: Names, i: nat)
    requires LegalNames(n) && root == ARTIFACT_ROOT && LegalName(root) && i < 5
    ensures UnderRoot(Paths(root, n)[i])
  {
  }

  lemma PathsAreDistinct(root: string, n: Names, i: nat, j: nat)
    requires LegalNames(n) && i < j < 5
    ensures Paths(root, n)[i] != Paths(root, n)[j]
  {
    if j < 4 || i < 3 {
      assert |Paths(root, n)[i]| < |Paths(root, n)[j]|;
    } else {
      assert Paths(root, n)[3][3] != Paths(root, n)[4][3];
    }
  }

  lemma MembersLieThere(root: string, n: Names)
    requires LegalNames(n) && root == ARTIFACT_ROOT && LegalName(root)
    ensures LieAt(Members(root, n), Paths(root, n))
  {
    forall i: nat | i < 5 ensures UnderRoot(Paths(root, n)[i]) {
      PathsAreUnderRoot(root, n, i);
    }
    forall i: nat, j: nat | i < j < 5 ensures Paths(root, n)[i] != Paths(root, n)[j] {
      PathsAreDistinct(root, n, i, j);
    }
  }

  lemma LinksLieThere(root: string, n: Names)
    requires LegalNames(n)
    ensures LinkAt(Members(root, n), Paths(root, n), 3, UP2, 0)
    ensures LinkAt(Members(root, n), Paths(root, n), 4, [n.up] + UP2, 1)
  {
    var paths := Paths(root, n);
    assert paths[3][..3] == [root, n.a, n.b] && paths[4][..3] == [root, n.a, n.b];
    UpResolves(root, n.a, n.b);
    BadResolves(root, n.a, n.b, n.up);
  }

  /** It passes the audit. */
  lemma MembersPassAudit(members: seq<Member>, paths: seq<Parts>, up: Parts, bad: Parts)
    requires LieAt(members, paths) && |members| == 5
    requires forall i :: 0 <= i < 3 ==> members[i].kind == Directory
    requires LinkAt(members, paths, 3, up, 0) && LinkAt(members, paths, 4, bad, 1)
    ensures Clean(members) && Findings(members) == []
  {
    MembersPass(members, paths);
    LinkPasses(members, paths, 3, up, 0);
    LinkPasses(members, paths, 4, bad, 1);
    NothingFoundExactly(members);
  }

  // ----- Where its last link leads on disk -----

  lemma {:induction false} SymlinkFound(members: seq<Member>, paths: seq<Parts>, i: nat)
    requires LieAt(members, paths) && i < |members|
    ensures SymlinkAt(members, paths[i]) == if members[i].kind == Symlink then Some(members[i].linkname) else None
  {
    ReadsName(paths[0]);
    if i > 0 {
      SymlinkFound(members[1..], paths[1..], i - 1);
    } else {
      NoOtherSymlink(members[1..], paths[1..], paths[0]);
    }
  }

  lemma {:induction false} NoOtherSymlink(members: seq<Member>, paths: seq<Parts>, here: Parts)
    requires LieAt(members, paths) && here !in paths
    ensures SymlinkAt(members, here).None?
  {
    if |members| > 0 {
      ReadsName(paths[0]);
      assert paths[0] in paths;
      NoOtherSymlink(members[1..], paths[1..], here);
    }
  }

  lemma StepsDown(members: seq<Member>, dir: Parts, name: string, rest: Parts, budget: nat)
    requires name != ".." && SymlinkAt(members, dir + [name]).None?
    ensures Land(members, dir, [name] + rest, budget) == Land(members, dir + [name], rest, budget)
  {
    assert ([name] + rest)[1..] == rest;
  }

  lemma StepsUp(members: seq<Member>, dir: Parts, name: string, rest: Parts, budget: nat)
    ensures Land(members, dir + [name], [".."] + rest, budget) == Land(members, dir, rest, budget)
  {
    assert (dir + [name])[..|dir|] == dir && ([".."] + rest)[1..] == rest;
  }

  lemma StepsThrough(members: seq<Member>, dir: Parts, name: string, link: string, rest: Parts, budget: nat)
    requires name != ".." && SymlinkAt(members, dir + [name]) == Some(link) && !IsAbsolute(link) && |rest| > 0
    requires budget > 0
    ensures Land(members, dir, [name] + rest, budget) == Land(members, dir, Components(link) + rest, budget - 1)
  {
    assert ([name] + rest)[1..] == rest;
  }

  /** Three directories down, through a symlink to two up, and two up again. */
  lemma LandsOutside(members: seq<Member>, x: string, y: string, z: string, u: string, link: string, budget: nat)
    requires x != ".." && y != ".." && z != ".." && u != ".." && budget > 0
    requires SymlinkAt(members, [x]).None? && SymlinkAt(members, [x, y]).None? && SymlinkAt(members, [x, y, z]).None?
    requires SymlinkAt(members, [x, y, z, u]) == Some(link) && !IsAbsolute(link) && Components(link) == ["..", ".."]
    ensures Land(members, [], [x, y, z, u, "..", ".."], budget) == Outside
  {
    assert [] + [x] == [x] && [x] + [y] == [x, y] && [x, y] + [z] == [x, y, z] && [x, y, z] + [u] == [x, y, z, u];
    assert [x] + [y, z, u, "..", ".."] == [x, y, z, u, "..", ".."];
    StepsDown(members, [], x, [y, z, u, "..", ".."], budget);
    assert [y] + [z, u, "..", ".."] == [y, z, u, "..", ".."];
    StepsDown(members, [x], y, [z, u, "..", ".."], budget);
    assert [z] + [u, "..", ".."] == [z, u, "..", ".."];
    StepsDown(members, [x, y], z, [u, "..", ".."], budget);
    assert [u] + ["..", ".."] == [u, "..", ".."];
    StepsThrough(members, [x, y, z], u, link, ["..", ".."], budget);
    ClimbsOut(members, x, y, z, budget - 1);
  }

  lemma ClimbsOut(members: seq<Member>, x: string, y: string, z: string, budget: nat)
    ensures Land(members, [x, y, z], ["..", ".."] + ["..", ".."], budget) == Outside
  {
    var up1, up2, up3 := [".."], ["..", ".."], ["..", "..", ".."];
    assert ["..", ".."] + ["..", ".."] == [".."] + up3 && [".."] + up2 == up3 && [".."] + up1 == up2;
    assert [x, y] + [z] == [x, y, z] && [x] + [y] == [x, y] && [] + [x] == [x];
    StepsUp(members, [x, y], z, up3, budget);
    StepsUp(members, [x], y, up2, budget);
    StepsUp(members, [], x, up1, budget);
  }

  lemma BadLeadsOutside(root: string, n: Names, budget: nat)
    requires LegalNames(n) && root == ARTIFACT_ROOT && LegalName(root) && budget >= 1
    ensures OnDisk(Members(root, n), Members(root, n)[4], budget) == Outside
  {
    var members, paths := Members(root, n), Paths(root, n);
    MembersLieThere(root, n);
    LinksLieThere(root, n);
    LinkPasses(members, paths, 4, [n.up] + UP2, 1);
    SymlinkFound(members, paths, 0);
    SymlinkFound(members, paths, 1);
    SymlinkFound(members, paths, 2);
    SymlinkFound(members, paths, 3);
    JoinIsRelative(UP2);
    assert WayTo(members[4]) == [root, n.a, n.b, n.up, "..", ".."];
    LandsOutside(members, root, n.a, n.b, n.up, members[3].linkname, budget);
  }

  /** The archive passes, and yet `up` is `.next` on disk and the way to `bad` leads above the place of unpacking. */
  lemma PassingArchiveLeadsOutside(n: Names, budget: nat)
    requires LegalNames(n) && budget >= 1
    ensures Clean(Archive(n)) && Findings(Archive(n)) == []
    ensures OnDisk(Archive(n), Archive(n)[4], budget) == Outside
    ensures Follow(Archive(n), 4) == Join([ARTIFACT_ROOT, n.a])
  {
    var root := ARTIFACT_ROOT;
    MembersLieThere(root, n);
    LinksLieThere(root, n);
    MembersPassAudit(Archive(n), Paths(root, n), UP2, [n.up] + UP2);
    LinkPasses(Archive(n), Paths(root, n), 4, [n.up] + UP2, 1);
    BadLeadsOutside(root, n, budget);
  }

  /** So what can be asked beside the audit fails for it. */
  lemma ArchiveMeetsLink(n: Names)
    requires LegalNames(n)
    ensures !NoLinkBehindLink(Archive(n))
  {
    PassingArchiveLeadsOutside(n, 1);
    if NoLinkBehindLink(Archive(n)) {
      CleanLinkLands(Archive(n), 4, 1);
    }
  }
}
