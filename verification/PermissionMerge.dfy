/**
 Effective permissions: grants are collected into one mutable set of scopes and one of
 app roles per resource, denials are taken out again, and what is left is listed in order.
 */
module PermissionMerge {

  datatype Grant = Grant(resource: string, scopes: seq<string>, roles: seq<string>)

  datatype Entry = Entry(scopes: set<string>, roles: set<string>)

  // ---------------------------------------------------------------------
  // Ordered lists of names
  // ---------------------------------------------------------------------

  /** Python's order on strings, character by character. */
  predicate Less(a: string, b: string) {
    b != [] && (a == [] || a[0] < b[0] || (a[0] == b[0] && Less(a[1..], b[1..])))
  }

  /** The two agree before position `k`, and `a` has the lower character there. */
  predicate LowerAt(a: string, b: string, k: nat) {
    k < |a| && k < |b| && a[k] < b[k] && forall j :: 0 <= j < k ==> a[j] == b[j]
  }

  /** The order the lists are in: a proper prefix first, and else the lower code point where two names first differ. */
  ghost predicate Before(a: string, b: string) {
    a < b || exists k :: LowerAt(a, b, k)
  }

  lemma BeforeByTails(a: string, b: string)
    requires a != [] && b != [] && a[0] == b[0]
    ensures Before(a, b) <==> Before(a[1..], b[1..])
  {
    assert a == [a[0]] + a[1..] && b == [b[0]] + b[1..];
    if k: nat :| LowerAt(a, b, k) {
      assert LowerAt(a[1..], b[1..], k - 1);
    }
    if k: nat :| LowerAt(a[1..], b[1..], k) {
      assert LowerAt(a, b, k + 1);
    }
  }

  lemma {:induction false} LessIsBefore(a: string, b: string)
    ensures Less(a, b) <==> Before(a, b)
  {
    if a == [] || b == [] {
    } else if a[0] != b[0] {
      assert a[0] < b[0] ==> LowerAt(a, b, 0);
      assert forall k: nat :: LowerAt(a, b, k) && k > 0 ==> a[0] == b[0];
    } else {
      BeforeByTails(a, b);
      LessIsBefore(a[1..], b[1..]);
    }
  }

  lemma {:induction false} LessIsTotal(a: string, b: string)
    ensures Less(a, b) || a == b || Less(b, a)
  {
    if a == [] || b == [] || a[0] != b[0] {
    } else {
      LessIsTotal(a[1..], b[1..]);
      assert a == [a[0]] + a[1..] && b == [b[0]] + b[1..];
    }
  }

  lemma {:induction false} LessIsTransitive(a: string, b: string, c: string)
    requires Less(a, b) && Less(b, c)
    ensures Less(a, c)
  {
    if a == [] || a[0] != b[0] || b[0] != c[0] {
    } else {
      LessIsTransitive(a[1..], b[1..], c[1..]);
    }
  }

  lemma {:induction false} LessIsIrreflexive(a: string)
    ensures !Less(a, a)
  {
    if a == [] {
    } else {
      LessIsIrreflexive(a[1..]);
    }
  }

  lemma BeforeIsOrder(a: string, b: string, c: string)
    ensures Before(a, b) || a == b || Before(b, a)
    ensures Before(a, b) && Before(b, c) ==> Before(a, c)
    ensures !Before(a, a)
  {
    LessIsBefore(a, b);
    LessIsBefore(b, a);
    LessIsBefore(b, c);
    LessIsBefore(a, c);
    LessIsBefore(a, a);
    LessIsTotal(a, b);
    if Less(a, b) && Less(b, c) {
      LessIsTransitive(a, b, c);
    }
    LessIsIrreflexive(a);
  }

  ghost predicate Ascending(names: seq<string>) {
    forall i, j :: 0 <= i < j < |names| ==> Before(names[i], names[j])
  }

  /** An ascending list is determined by its elements. */
  lemma {:induction false} AscendingIsUnique(a: seq<string>, b: seq<string>)
    requires Ascending(a) && Ascending(b)
    requires forall x :: x in a <==> x in b
    ensures a == b
  {
    assert (a == [] || a[0] in a) && (b == [] || b[0] in b);
    if a == [] || b == [] {
    } else {
      HeadIsLeast(a, b);
      forall x ensures x in a[1..] <==> x in b[1..] {
        TailMembers(a, x);
        TailMembers(b, x);
      }
      AscendingIsUnique(a[1..], b[1..]);
    }
  }

  lemma HeadIsLeast(a: seq<string>, b: seq<string>)
    requires a != [] && b != [] && Ascending(a) && Ascending(b)
    requires forall x :: x in a <==> x in b
    ensures a[0] == b[0]
  {
    assert a[0] in b && b[0] in a;
    if a[0] != b[0] {
      BeforeIsOrder(a[0], b[0], a[0]);
    }
  }

  lemma TailMembers(a: seq<string>, x: string)
    requires a != [] && Ascending(a)
    ensures x in a[1..] <==> x in a && x != a[0]
  {
    BeforeIsOrder(a[0], a[0], a[0]);
    assert a == [a[0]] + a[1..];
  }

  /** Python's sorted() on a set. */
  method Sorted(names: set<string>) returns (list: seq<string>)
    ensures Ascending(list)
    ensures forall x :: x in list <==> x in names
  {
    list := [];
    var todo := names;
    while todo != {}
      invariant todo <= names && Ascending(list)
      invariant forall x :: x in list <==> x in names - todo
      decreases todo
    {
      var x :| x in todo;
      todo := todo - {x};
      list := Insert(list, x);
    }
  }

  lemma InsertedAscends(list: seq<string>, i: nat, x: string)
    requires Ascending(list) && i <= |list|
    requires forall j :: 0 <= j < i ==> Before(list[j], x)
    requires i < |list| ==> Before(x, list[i])
    ensures Ascending(list[..i] + [x] + list[i..])
  {
    forall j | i <= j < |list| ensures Before(x, list[j]) {
      BeforeIsOrder(x, list[i], list[j]);
    }
  }

  method Insert(list: seq<string>, x: string) returns (longer: seq<string>)
    requires Ascending(list) && x !in list
    ensures Ascending(longer)
    ensures forall y :: y in longer <==> y in list || y == x
  {
    var i := 0;
    while i < |list| && Less(list[i], x)
      invariant 0 <= i <= |list|
      invariant forall j :: 0 <= j < i ==> Before(list[j], x)
    {
      LessIsBefore(list[i], x);
      i := i + 1;
    }
    longer := list[..i] + [x] + list[i..];
    if i < |list| {
      LessIsBefore(list[i], x);
      BeforeIsOrder(list[i], x, x);
    }
    InsertedAscends(list, i, x);
    assert list == list[..i] + list[i..];
  }

  // ---------------------------------------------------------------------
  // What a list of grants means
  // ---------------------------------------------------------------------

  ghost predicate GivesScope(grants: seq<Grant>, resource: string, scope: string) {
    exists i :: 0 <= i < |grants| && grants[i].resource == resource && scope in grants[i].scopes
  }

  ghost predicate GivesRole(grants: seq<Grant>, resource: string, role: string) {
    exists i :: 0 <= i < |grants| && grants[i].resource == resource && role in grants[i].roles
  }

  /** Resources ascending, names ascending within each, and no entry empty. */
  ghost predicate Canonical(list: seq<Grant>) {
    && (forall i, j :: 0 <= i < j < |list| ==> Before(list[i].resource, list[j].resource))
    && (forall i :: 0 <= i < |list| ==>
          Ascending(list[i].scopes) && Ascending(list[i].roles) && (list[i].scopes != [] || list[i].roles != []))
  }

  /** The meaning of a merge: what some grant gives and no denial takes. */
  ghost predicate IsMerge(merged: seq<Grant>, grants: seq<Grant>, denied: seq<Grant>) {
    && Canonical(merged)
    && (forall r, x :: GivesScope(merged, r, x) <==> GivesScope(grants, r, x) && !GivesScope(denied, r, x))
    && (forall r, x :: GivesRole(merged, r, x) <==> GivesRole(grants, r, x) && !GivesRole(denied, r, x))
  }

  ghost predicate SameMeaning(a: seq<Grant>, b: seq<Grant>) {
    && (forall r, x :: GivesScope(a, r, x) <==> GivesScope(b, r, x))
    && (forall r, x :: GivesRole(a, r, x) <==> GivesRole(b, r, x))
  }

  lemma AppendMeaning(a: seq<Grant>, b: seq<Grant>)
    ensures forall r, x :: GivesScope(a + b, r, x) <==> GivesScope(a, r, x) || GivesScope(b, r, x)
    ensures forall r, x :: GivesRole(a + b, r, x) <==> GivesRole(a, r, x) || GivesRole(b, r, x)
  {
    var ab := a + b;
    assert forall i :: 0 <= i < |a| ==> ab[i] == a[i];
    assert forall i :: 0 <= i < |b| ==> ab[|a| + i] == b[i];
    forall r, x ensures GivesScope(ab, r, x) <==> GivesScope(a, r, x) || GivesScope(b, r, x) {
      if GivesScope(ab, r, x) {
        var i :| 0 <= i < |ab| && ab[i].resource == r && x in ab[i].scopes;
        assert i < |a| || b[i - |a|] == ab[i];
      }
    }
    forall r, x ensures GivesRole(ab, r, x) <==> GivesRole(a, r, x) || GivesRole(b, r, x) {
      if GivesRole(ab, r, x) {
        var i :| 0 <= i < |ab| && ab[i].resource == r && x in ab[i].roles;
        assert i < |a| || b[i - |a|] == ab[i];
      }
    }
  }

  // ---------------------------------------------------------------------
  // The merge itself
  // ---------------------------------------------------------------------

  /** The accumulated sets hold what `grants` give minus what `denied` take. */
  ghost predicate Holds(byResource: map<string, Entry>, grants: seq<Grant>, denied: seq<Grant>) {
    && (forall r, x :: r in byResource && x in byResource[r].scopes
                       <==> GivesScope(grants, r, x) && !GivesScope(denied, r, x))
    && (forall r, x :: r in byResource && x in byResource[r].roles
                       <==> GivesRole(grants, r, x) && !GivesRole(denied, r, x))
  }

  function SetDefault(byResource: map<string, Entry>, resource: string): Entry {
    if resource in byResource then byResource[resource] else Entry({}, {})
  }

  function Elements(names: seq<string>): set<string> {
    set x | x in names
  }

  lemma GrantStep(byResource: map<string, Entry>, grants: seq<Grant>, g: Grant)
    requires Holds(byResource, grants, [])
    ensures var e := SetDefault(byResource, g.resource);
            Holds(byResource[g.resource := Entry(e.scopes + Elements(g.scopes), e.roles + Elements(g.roles))],
                  grants + [g], [])
  {
    AppendMeaning(grants, [g]);
    SingleMeaning(g);
  }

  lemma DenyStep(byResource: map<string, Entry>, grants: seq<Grant>, denied: seq<Grant>, d: Grant)
    requires Holds(byResource, grants, denied)
    ensures var e := SetDefault(byResource, d.resource);
            Holds(byResource[d.resource := Entry(e.scopes - Elements(d.scopes), e.roles - Elements(d.roles))],
                  grants, denied + [d])
  {
    AppendMeaning(denied, [d]);
    SingleMeaning(d);
  }

  lemma SingleMeaning(g: Grant)
    ensures forall r, x :: GivesScope([g], r, x) <==> r == g.resource && x in g.scopes
    ensures forall r, x :: GivesRole([g], r, x) <==> r == g.resource && x in g.roles
  {
    assert [g][0] == g;
  }

  method MergeGrants(grants: seq<Grant>, denied: seq<Grant>) returns (merged: seq<Grant>)
    ensures IsMerge(merged, grants, denied)
  {
    var byResource: map<string, Entry> := map[];
    for i := 0 to |grants|
      invariant Holds(byResource, grants[..i], [])
    {
      var g := grants[i];
      GrantStep(byResource, grants[..i], g);
      assert grants[..i + 1] == grants[..i] + [g];
      var e := SetDefault(byResource, g.resource);
      byResource := byResource[g.resource := Entry(e.scopes + Elements(g.scopes), e.roles + Elements(g.roles))];
    }
    assert grants[..|grants|] == grants && denied[..0] == [];
    for i := 0 to |denied|
      invariant Holds(byResource, grants, denied[..i])
    {
      var d := denied[i];
      DenyStep(byResource, grants, denied[..i], d);
      assert denied[..i + 1] == denied[..i] + [d];
      var e := SetDefault(byResource, d.resource);
      byResource := byResource[d.resource := Entry(e.scopes - Elements(d.scopes), e.roles - Elements(d.roles))];
    }
    assert denied[..|denied|] == denied;
    merged := Listed(byResource);
  }

  /** The list holds what the sets of the resources in `names` hold, in their order. */
  ghost predicate ListsUpTo(list: seq<Grant>, byResource: map<string, Entry>, names: seq<string>) {
    && (forall r :: r in names ==> r in byResource)
    && Canonical(list)
    && (forall r, x :: GivesScope(list, r, x) <==> r in names && x in byResource[r].scopes)
    && (forall r, x :: GivesRole(list, r, x) <==> r in names && x in byResource[r].roles)
  }

  lemma ListOneMore(list: seq<Grant>, byResource: map<string, Entry>, names: seq<string>, g: Grant)
    requires ListsUpTo(list, byResource, names) && g.resource in byResource && g.resource !in names
    requires forall i :: 0 <= i < |list| ==> Before(list[i].resource, g.resource)
    requires Ascending(g.scopes) && forall x :: x in g.scopes <==> x in byResource[g.resource].scopes
    requires Ascending(g.roles) && forall x :: x in g.roles <==> x in byResource[g.resource].roles
    requires g.scopes != [] || g.roles != []
    ensures ListsUpTo(list + [g], byResource, names + [g.resource])
  {
    AppendMeaning(list, [g]);
    SingleMeaning(g);
  }

  /** Everything listed comes before the names from number `i` on. */
  ghost predicate Ahead(list: seq<Grant>, names: seq<string>, i: nat) {
    forall j, k :: 0 <= j < |list| && i <= k < |names| ==> Before(list[j].resource, names[k])
  }

  lemma StaysAhead(list: seq<Grant>, names: seq<string>, i: nat, g: Grant)
    requires Ahead(list, names, i) && Ascending(names) && i < |names| && g.resource == names[i]
    ensures Ahead(list, names, i + 1) && Ahead(list + [g], names, i + 1)
    ensures forall j :: 0 <= j < |list| ==> Before(list[j].resource, g.resource)
    ensures names[i] !in names[..i]
  {
    BeforeIsOrder(names[i], names[i], names[i]);
  }

  method EntryOf(resource: string, e: Entry) returns (g: Grant)
    ensures g.resource == resource && Ascending(g.scopes) && Ascending(g.roles)
    ensures (forall x :: x in g.scopes <==> x in e.scopes) && (forall x :: x in g.roles <==> x in e.roles)
    ensures (e.scopes != {} ==> g.scopes != []) && (e.roles != {} ==> g.roles != [])
  {
    var scopes := Sorted(e.scopes);
    var roles := Sorted(e.roles);
    assert scopes == [] ==> forall x :: x !in e.scopes;
    assert roles == [] ==> forall x :: x !in e.roles;
    g := Grant(resource, scopes, roles);
  }

  /** The entries that are not empty, in order of resource. */
  method Listed(byResource: map<string, Entry>) returns (list: seq<Grant>)
    ensures Canonical(list)
    ensures forall r, x :: GivesScope(list, r, x) <==> r in byResource && x in byResource[r].scopes
    ensures forall r, x :: GivesRole(list, r, x) <==> r in byResource && x in byResource[r].roles
  {
    var names := Sorted(byResource.Keys);
    list := [];
    for i := 0 to |names|
      invariant ListsUpTo(list, byResource, names[..i]) && Ahead(list, names, i)
    {
      var r := names[i];
      var e := byResource[r];
      assert names[..i + 1] == names[..i] + [r];
      var g := EntryOf(r, e);
      StaysAhead(list, names, i, g);
      if e.scopes != {} || e.roles != {} {
        ListOneMore(list, byResource, names[..i], g);
        list := list + [g];
      }
    }
    assert names[..|names|] == names;
  }

  // ---------------------------------------------------------------------
  // Canonical form
  // ---------------------------------------------------------------------

  function Resources(list: seq<Grant>): seq<string> {
    seq(|list|, i requires 0 <= i < |list| => list[i].resource)
  }

  lemma ResourceMeans(list: seq<Grant>, i: nat)
    requires Canonical(list) && i < |list|
    ensures forall x :: x in list[i].scopes <==> GivesScope(list, list[i].resource, x)
    ensures forall x :: x in list[i].roles <==> GivesRole(list, list[i].resource, x)
  {
    BeforeIsOrder(list[i].resource, list[i].resource, list[i].resource);
  }

  lemma SameResources(a: seq<Grant>, b: seq<Grant>, r: string)
    requires Canonical(a) && SameMeaning(a, b) && r in Resources(a)
    ensures r in Resources(b)
  {
    var i :| 0 <= i < |a| && a[i].resource == r;
    if a[i].scopes != [] {
      assert GivesScope(a, r, a[i].scopes[0]);
      var j :| 0 <= j < |b| && b[j].resource == r && a[i].scopes[0] in b[j].scopes;
      assert Resources(b)[j] == r;
    } else {
      assert GivesRole(a, r, a[i].roles[0]);
      var j :| 0 <= j < |b| && b[j].resource == r && a[i].roles[0] in b[j].roles;
      assert Resources(b)[j] == r;
    }
  }

  /** A canonical list is determined by its meaning. */
  lemma CanonicalIsUnique(a: seq<Grant>, b: seq<Grant>)
    requires Canonical(a) && Canonical(b) && SameMeaning(a, b)
    ensures a == b
  {
    forall r ensures r in Resources(a) <==> r in Resources(b) {
      if r in Resources(a) { SameResources(a, b, r); }
      if r in Resources(b) { SameResources(b, a, r); }
    }
    AscendingIsUnique(Resources(a), Resources(b));
    assert |a| == |Resources(a)| == |Resources(b)| == |b|;
    forall i | 0 <= i < |a| ensures a[i] == b[i] {
      assert a[i].resource == Resources(a)[i] == Resources(b)[i] == b[i].resource;
      ResourceMeans(a, i);
      ResourceMeans(b, i);
      AscendingIsUnique(a[i].scopes, b[i].scopes);
      AscendingIsUnique(a[i].roles, b[i].roles);
    }
  }

  /** Grants and denials that mean the same merge to the same list. */
  lemma MergeDependsOnMeaning(
    m1: seq<Grant>, g1: seq<Grant>, d1: seq<Grant>, m2: seq<Grant>, g2: seq<Grant>, d2: seq<Grant>)
    requires IsMerge(m1, g1, d1) && IsMerge(m2, g2, d2)
    requires SameMeaning(g1, g2) && SameMeaning(d1, d2)
    ensures m1 == m2
  {
    CanonicalIsUnique(m1, m2);
  }

  /** In particular the order and the repetition of grants and denials do not matter. */
  lemma MergeIgnoresOrderAndRepetition(
    m1: seq<Grant>, g1: seq<Grant>, d1: seq<Grant>, m2: seq<Grant>, g2: seq<Grant>, d2: seq<Grant>)
    requires IsMerge(m1, g1, d1) && IsMerge(m2, g2, d2)
    requires (forall g :: g in g1 <==> g in g2) && (forall d :: d in d1 <==> d in d2)
    ensures m1 == m2
  {
    SameElementsSameMeaning(g1, g2);
    SameElementsSameMeaning(d1, d2);
    MergeDependsOnMeaning(m1, g1, d1, m2, g2, d2);
  }

  lemma SameElementsSameMeaning(a: seq<Grant>, b: seq<Grant>)
    requires forall g :: g in a <==> g in b
    ensures SameMeaning(a, b)
  {
    forall r, x ensures GivesScope(a, r, x) <==> GivesScope(b, r, x) {
      assert GivesScope(a, r, x) <==> exists g :: g in a && g.resource == r && x in g.scopes;
      assert GivesScope(b, r, x) <==> exists g :: g in b && g.resource == r && x in g.scopes;
    }
    forall r, x ensures GivesRole(a, r, x) <==> GivesRole(b, r, x) {
      assert GivesRole(a, r, x) <==> exists g :: g in a && g.resource == r && x in g.roles;
      assert GivesRole(b, r, x) <==> exists g :: g in b && g.resource == r && x in g.roles;
    }
  }

  /** Nor does it matter whether a grant is given in one piece or in two. */
  lemma SplitGrantSameMeaning(r: string, s1: seq<string>, s2: seq<string>, r1: seq<string>, r2: seq<string>,
                              before: seq<Grant>, after: seq<Grant>)
    ensures SameMeaning(before + [Grant(r, s1 + s2, r1 + r2)] + after,
                        before + ([Grant(r, s1, r1)] + [Grant(r, s2, r2)]) + after)
  {
    var whole := [Grant(r, s1 + s2, r1 + r2)];
    var parts := [Grant(r, s1, r1)] + [Grant(r, s2, r2)];
    SingleMeaning(Grant(r, s1 + s2, r1 + r2));
    SingleMeaning(Grant(r, s1, r1));
    SingleMeaning(Grant(r, s2, r2));
    AppendMeaning([Grant(r, s1, r1)], [Grant(r, s2, r2)]);
    AppendMeaning(before, whole);
    AppendMeaning(before + whole, after);
    AppendMeaning(before, parts);
    AppendMeaning(before + parts, after);
  }

  // ---------------------------------------------------------------------
  // Algebra
  // ---------------------------------------------------------------------

  /** Merging two merges under the same denials is merging everything at once. */
  lemma MergeOfMerges(ma: seq<Grant>, a: seq<Grant>, mb: seq<Grant>, b: seq<Grant>, denied: seq<Grant>,
                      twice: seq<Grant>, once: seq<Grant>)
    requires IsMerge(ma, a, denied) && IsMerge(mb, b, denied)
    requires IsMerge(twice, ma + mb, denied) && IsMerge(once, a + b, denied)
    ensures twice == once
  {
    AppendMeaning(ma, mb);
    AppendMeaning(a, b);
    CanonicalIsUnique(twice, once);
  }

  /** Denials can be applied one list after the other. */
  lemma DenyInStages(first: seq<Grant>, grants: seq<Grant>, d1: seq<Grant>, d2: seq<Grant>,
                     staged: seq<Grant>, once: seq<Grant>)
    requires IsMerge(first, grants, d1) && IsMerge(staged, first, d2) && IsMerge(once, grants, d1 + d2)
    ensures staged == once
  {
    AppendMeaning(d1, d2);
    CanonicalIsUnique(staged, once);
  }

  /** More grants never take a permission away, more denials never give one. */
  lemma MergeIsMonotone(less: seq<Grant>, more: seq<Grant>, grants: seq<Grant>, denied: seq<Grant>,
                        moreGrants: seq<Grant>, moreDenied: seq<Grant>)
    requires IsMerge(less, grants, denied + moreDenied) && IsMerge(more, grants + moreGrants, denied)
    ensures forall r, x :: GivesScope(less, r, x) ==> GivesScope(more, r, x)
    ensures forall r, x :: GivesRole(less, r, x) ==> GivesRole(more, r, x)
  {
    AppendMeaning(grants, moreGrants);
    AppendMeaning(denied, moreDenied);
  }
}
