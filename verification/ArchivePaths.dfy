/** What a passing audit says in terms of the components of names alone. */
module ArchivePaths {
  import opened ArchiveAudit

  // ----- The whole audit -----

  /** The directory a link's target starts from: that of a symlink, the place of unpacking for a hard link. */
  function StartOf(m: Member): Parts {
    var own := Components(m.name);
    if m.kind == Hardlink || |own| == 0 then [] else own[..|own| - 1]
  }

  /** What is asked of a link: a relative target that never climbs above the place of unpacking and cancels down to the
      components of a member. */
  ghost predicate GoodLink(members: seq<Member>, m: Member) {
    && (|m.linkname| == 0 || m.linkname[0] != '/')
    && !ClimbsAbove(|StartOf(m)|, Components(m.linkname))
    && exists k :: 0 <= k < |members| && IsNormalForm(StartOf(m) + Components(m.linkname), Components(members[k].name))
  }

  ghost predicate Good(members: seq<Member>) {
    && (forall i :: 0 <= i < |members| ==> MemberClean(members[i]))
    && (forall i, j :: 0 <= i < j < |members| ==> Components(members[i].name) != Components(members[j].name))
    && (forall i :: 0 <= i < |members| && members[i].kind in {Symlink, Hardlink} ==> GoodLink(members, members[i]))
  }

  lemma CleanNameIsJoin(m: Member)
    requires MemberClean(m)
    ensures ReadMemberPath(m.name).normalized == Join(Components(m.name))
  {
    assert "" + Join(Components(m.name)) == Join(Components(m.name));
  }

  lemma SameNameSameComponents(a: Member, b: Member)
    requires MemberClean(a) && MemberClean(b)
    ensures ReadMemberPath(a.name).normalized == ReadMemberPath(b.name).normalized <==>
            Components(a.name) == Components(b.name)
  {
    CleanNameIsJoin(a);
    CleanNameIsJoin(b);
    ComponentsAreLegal(a.name);
    ComponentsAreLegal(b.name);
    JoinRoundTrip(Components(a.name));
    JoinRoundTrip(Components(b.name));
  }

  lemma UniqueByComponents(members: seq<Member>)
    requires forall i :: 0 <= i < |members| ==> MemberClean(members[i])
    ensures Unique(Normalized(members)) <==>
            forall i, j :: 0 <= i < j < |members| ==> Components(members[i].name) != Components(members[j].name)
  {
    forall i, j | 0 <= i < j < |members|
      ensures Normalized(members)[i] == Normalized(members)[j] <==>
              Components(members[i].name) == Components(members[j].name)
    {
      SameNameSameComponents(members[i], members[j]);
    }
  }

  /** The target of a link, resolved as text, is the join of where the walk over its components ends. */
  lemma LinkResolves(m: Member)
    requires MemberClean(m) && !IsAbsolute(m.linkname)
    ensures var w := Walk(StartOf(m), false, Components(m.linkname));
            && ResolveLink(ReadMemberPath(m.name).normalized, m.linkname, m.kind == Hardlink)
               == Target(PosixOf(w.parts), w.escaped)
            && DotFree(StartOf(m))
  {
    CleanNameIsJoin(m);
    NormalizedReadsBack(m.name);
    var own, name := Components(m.name), ReadMemberPath(m.name).normalized;
    ComponentsAreLegal(m.name);
    RelativeRoot(name, own);
    assert BaseOf(name, m.kind == Hardlink) == StartOf(m);
  }

  lemma RelativeRoot(name: string, parts: Parts)
    requires LegalParts(parts) && |parts| > 0 && name == Join(parts)
    ensures !IsAbsolute(name) && Root(name) == ""
  {
    assert parts[0][0] in parts[0];
    assert name[0] == parts[0][0];
  }

  lemma TextIsMember(parts: Parts, m: Member)
    requires LegalParts(parts) && MemberClean(m)
    ensures PosixOf(parts) == ReadMemberPath(m.name).normalized <==> parts == Components(m.name)
  {
    CleanNameIsJoin(m);
    ComponentsAreLegal(m.name);
    JoinRoundTrip(Components(m.name));
    if |parts| > 0 {
      RelativeRoot(Join(parts), parts);
      RelativeRoot(parts[0], [parts[0]]);
      JoinRoundTrip(parts);
      assert "" + Join(parts) == Join(parts);
    } else {
      ComponentAlone(".");
    }
  }

  lemma {:induction false} WalkIsLegal(base: Parts, escaped: bool, target: Parts)
    requires LegalParts(base) && LegalParts(target)
    ensures LegalParts(Walk(base, escaped, target).parts)
    decreases |target|
  {
    if |target| > 0 {
      if target[0] == ".." {
        WalkIsLegal(if |base| == 0 then base else base[..|base| - 1], if |base| == 0 then true else escaped,
                    target[1..]);
      } else {
        WalkIsLegal(base + [target[0]], escaped, target[1..]);
      }
    }
  }

  lemma WalkIsNormalForm(base: Parts, target: Parts, normal: Parts)
    requires DotFree(base) && !Walk(base, false, target).escaped
    ensures IsNormalForm(base + target, normal) <==> normal == Walk(base, false, target).parts
  {
    NormalFormReached(base, target);
    var end := Walk(base, false, target).parts;
    forall other | DotFree(other) && Reduces(base + target, other) ensures other == end {
      NormalFormUnique(base, target, other);
    }
  }

  lemma CleanIsGoodLink(members: seq<Member>, m: Member)
    requires MemberClean(m) && IsLink(m) && forall k :: 0 <= k < |members| ==> MemberClean(members[k])
    ensures LinkClean(Normalized(members), m) <==> GoodLink(members, m)
  {
    if !IsAbsolute(m.linkname) {
      var base, target := StartOf(m), Components(m.linkname);
      var w := Walk(base, false, target);
      LinkResolves(m);
      EscapedExactly(base, target);
      if !w.escaped {
        ComponentsAreLegal(m.linkname);
        ComponentsAreLegal(m.name);
        WalkIsLegal(base, false, target);
        forall k | 0 <= k < |members|
          ensures IsNormalForm(base + target, Components(members[k].name)) <==>
                  PosixOf(w.parts) == ReadMemberPath(members[k].name).normalized
        {
          WalkIsNormalForm(base, target, Components(members[k].name));
          TextIsMember(w.parts, members[k]);
        }
        NameRecorded(members, PosixOf(w.parts));
      }
    }
  }

  /** The audit reports nothing exactly when every member and every link is good, in terms of components alone. */
  lemma PassesExactly(members: seq<Member>)
    ensures Findings(members) == [] <==> Good(members)
  {
    NothingFoundExactly(members);
    if forall i :: 0 <= i < |members| ==> MemberClean(members[i]) {
      UniqueByComponents(members);
      forall i | 0 <= i < |members| && IsLink(members[i])
        ensures LinkClean(Normalized(members), members[i]) <==> GoodLink(members, members[i])
      {
        CleanIsGoodLink(members, members[i]);
      }
    }
  }

  // ----- Where links lead -----

  lemma NameOfMemberLiesInside(members: seq<Member>, name: string)
    requires Clean(members) && name in Normalized(members)
    ensures LiesInside(name)
  {
    MembersAreInside(members, name);
    InsideBegins(name);
    var k :| 0 <= k < |members| && Normalized(members)[k] == name;
    CleanNameIsJoin(members[k]);
    ComponentsAreLegal(members[k].name);
    RelativeRoot(name, Components(members[k].name));
  }

  /** Following links as the audit reads them from a member of a passing archive leads to places under ".next". */
  lemma LinksLeadInside(members: seq<Member>, path: seq<string>, k: nat)
    requires Findings(members) == [] && Follows(members, path) && k < |path| && path[0] in Normalized(members)
    ensures LiesInside(path[k])
  {
    NothingFoundExactly(members);
    LinksStayInside(members, path, k);
    NameOfMemberLiesInside(members, path[k]);
  }

  // ----- The counters -----

  ghost function Those(members: seq<Member>, kind: Kind, bad: Member -> bool, n: nat): set<nat>
    requires n <= |members|
  {
    set i | 0 <= i < n && members[i].kind == kind && bad(members[i])
  }

  lemma ThoseMore(members: seq<Member>, kind: Kind, bad: Member -> bool, n: nat)
    requires n < |members|
    ensures Those(members, kind, bad, n + 1)
            == Those(members, kind, bad, n) + (if members[n].kind == kind && bad(members[n]) then {n} else {})
    ensures n !in Those(members, kind, bad, n)
  {
  }

  lemma {:induction false} CountIsSize(members: seq<Member>, kind: Kind, bad: Member -> bool, n: nat)
    requires n <= |members|
    ensures CountLinks(members, kind, bad, n) == |Those(members, kind, bad, n)|
  {
    if n > 0 {
      CountIsSize(members, kind, bad, n - 1);
      ThoseMore(members, kind, bad, n - 1);
    } else {
      assert Those(members, kind, bad, 0) == {};
    }
  }

  predicate BeginsWithSlash(m: Member) {
    |m.linkname| > 0 && m.linkname[0] == '/'
  }

  /** Where a target is resolved from: the root of the archive for a hard link, otherwise the place of the member. */
  function PlaceOf(m: Member): Parts {
    if m.kind == Hardlink then [] else ParentParts(ReadMemberPath(m.name).normalized)
  }

  /** The target is absolute or climbs above the place of unpacking. */
  ghost predicate Escapes(m: Member) {
    BeginsWithSlash(m) || ClimbsAbove(|PlaceOf(m)|, Components(m.linkname))
  }

  lemma EscapingExactly(m: Member)
    ensures AbsoluteTarget(m) <==> BeginsWithSlash(m)
    ensures EscapingTarget(m) <==> Escapes(m)
  {
    EscapedExactly(BaseOf(ReadMemberPath(m.name).normalized, m.kind == Hardlink), Components(m.linkname));
  }

  /** The four counters are the numbers of links of each kind whose target is absolute, and of those that escape. */
  lemma CountersExactly(members: seq<Member>)
    ensures var c := LinkCounts(members, |members|);
            && c.absoluteSymlinks
               == |set i | 0 <= i < |members| && members[i].kind == Symlink && BeginsWithSlash(members[i])|
            && c.escapingSymlinks == |set i | 0 <= i < |members| && members[i].kind == Symlink && Escapes(members[i])|
            && c.absoluteHardlinks
               == |set i | 0 <= i < |members| && members[i].kind == Hardlink && BeginsWithSlash(members[i])|
            && c.escapingHardlinks == |set i | 0 <= i < |members| && members[i].kind == Hardlink && Escapes(members[i])|
  {
    var n := |members|;
    forall m ensures (AbsoluteTarget(m) <==> BeginsWithSlash(m)) && (EscapingTarget(m) <==> Escapes(m)) {
      EscapingExactly(m);
    }
    CountIsSize(members, Symlink, AbsoluteTarget, n);
    CountIsSize(members, Symlink, EscapingTarget, n);
    CountIsSize(members, Hardlink, AbsoluteTarget, n);
    CountIsSize(members, Hardlink, EscapingTarget, n);
    assert Those(members, Symlink, AbsoluteTarget, n)
        == set i | 0 <= i < n && members[i].kind == Symlink && BeginsWithSlash(members[i]);
    assert Those(members, Symlink, EscapingTarget, n)
        == set i | 0 <= i < n && members[i].kind == Symlink && Escapes(members[i]);
    assert Those(members, Hardlink, AbsoluteTarget, n)
        == set i | 0 <= i < n && members[i].kind == Hardlink && BeginsWithSlash(members[i]);
    assert Those(members, Hardlink, EscapingTarget, n)
        == set i | 0 <= i < n && members[i].kind == Hardlink && Escapes(members[i]);
  }
}
