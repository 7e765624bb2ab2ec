/** PatchWorkspaceIamPolicy of backend/store/policy.go: the loop that edits the bindings in place
    while it uses up the map of wanted roles. */
module IamPatch {
  import opened Walks

  // ---------------------------------------------------------------- on values

  datatype Role = Role(name: string, members: seq<string>)

  /** slices.Delete at slices.Index: without the first occurrence. */
  function RemoveFirst(members: seq<string>, m: string): seq<string> {
    if members == [] then []
    else if members[0] == m then members[1..]
    else [members[0]] + RemoveFirst(members[1..], m)
  }

  function Count(members: seq<string>, m: string): nat {
    if members == [] then 0 else (if members[0] == m then 1 else 0) + Count(members[1..], m)
  }

  /** The other members, in order. */
  function Others(members: seq<string>, m: string): seq<string> {
    if members == [] then []
    else (if members[0] == m then [] else [members[0]]) + Others(members[1..], m)
  }

  function NamesOf(roles: seq<Role>): set<string> { set r | r in roles :: r.name }

  /** One turn of the loop, with the roles still wanted. */
  function PatchOne(r: Role, member: string, wanted: set<string>): Role {
    if r.name !in wanted then Role(r.name, RemoveFirst(r.members, member))
    else if member in r.members then r
    else Role(r.name, r.members + [member])
  }

  /** The i-th binding after the loop: a role is wanted until its first binding has been met. */
  function PatchedAt(roles: seq<Role>, i: nat, member: string, wanted: set<string>): Role
    requires i < |roles|
  {
    PatchOne(roles[i], member, wanted - NamesOf(roles[..i]))
  }

  function Loop(roles: seq<Role>, member: string, wanted: set<string>): (r: seq<Role>)
    ensures |r| == |roles| && forall i :: 0 <= i < |roles| ==> r[i] == PatchedAt(roles, i, member, wanted)
  {
    seq(|roles|, i requires 0 <= i < |roles| => PatchedAt(roles, i, member, wanted))
  }

  /** One new binding for each role that had none, in some order. */
  function Added(order: seq<string>, member: string): (r: seq<Role>)
    ensures |r| == |order| && forall i :: 0 <= i < |order| ==> r[i] == Role(order[i], [member])
  {
    seq(|order|, i requires 0 <= i < |order| => Role(order[i], [member]))
  }

  /** An order of the leftover roles. */
  ghost predicate OrderOf(order: seq<string>, leftover: set<string>) {
    && (forall i, j :: 0 <= i < j < |order| ==> order[i] != order[j])
    && (forall r :: r in order <==> r in leftover)
  }

  function Patched(roles: seq<Role>, member: string, wanted: set<string>, order: seq<string>): seq<Role> {
    Loop(roles, member, wanted) + Added(order, member)
  }

  // ---------------------------------------------------------------- in place

  class Binding {
    const role: string
    var members: seq<string>

    constructor (role: string, members: seq<string>)
      ensures this.role == role && this.members == members
    {
      this.role, this.members := role, members;
    }

    function View(): Role reads this { Role(role, members) }

    /** One turn of the loop. */
    method Patch(member: string, wanted: set<string>)
      modifies this
      ensures View() == PatchOne(old(View()), member, wanted)
    {
      if role !in wanted {
        if member in members { members := RemoveFirst(members, member); } else { RemoveAbsent(members, member); }
      } else if member !in members {
        members := members + [member];
      }
    }
  }

  function Views(bindings: seq<Binding>): (r: seq<Role>)
    reads bindings
    ensures |r| == |bindings| && forall i :: 0 <= i < |bindings| ==> r[i] == bindings[i].View()
  {
    seq(|bindings|, i requires 0 <= i < |bindings| reads bindings => bindings[i].View())
  }

  ghost predicate DistinctObjects(bindings: seq<Binding>) {
    forall i, j :: 0 <= i < j < |bindings| ==> bindings[i] != bindings[j]
  }

  /** The rewrite of the bindings; the runtime picks the order of the roles that are added. */
  method PatchBindings(bindings: seq<Binding>, member: string, patchRoles: seq<string>)
    returns (result: seq<Binding>, order: seq<string>)
    requires DistinctObjects(bindings)
    modifies bindings
    ensures var wanted := set r | r in patchRoles;
            && Views(result) == Patched(old(Views(bindings)), member, wanted, order)
            && OrderOf(order, wanted - NamesOf(old(Views(bindings))))
    ensures |result| >= |bindings| && result[..|bindings|] == bindings && fresh(result[|bindings|..])
  {
    ghost var was := Views(bindings);
    ghost var wanted := set r | r in patchRoles;
    var roleMap := set r | r in patchRoles;
    for i := 0 to |bindings|
      invariant roleMap == wanted - NamesOf(was[..i])
      invariant forall j :: 0 <= j < i ==> bindings[j].View() == PatchedAt(was, j, member, wanted)
      invariant forall j :: i <= j < |bindings| ==> bindings[j].View() == was[j]
    {
      assert was[..i+1] == was[..i] + [was[i]];
      bindings[i].Patch(member, roleMap);
      roleMap := roleMap - {bindings[i].role};
    }
    assert was[..|bindings|] == was;
    result, order := AddBindings(bindings, member, roleMap);
    assert Views(result) == Loop(was, member, wanted) + Added(order, member);
  }

  /** The loop over what is left of the map. */
  method AddBindings(bindings: seq<Binding>, member: string, leftover: set<string>)
    returns (result: seq<Binding>, order: seq<string>)
    ensures OrderOf(order, leftover) && |result| == |bindings| + |order| && result[..|bindings|] == bindings
    ensures fresh(result[|bindings|..])
    ensures forall i :: 0 <= i < |order| ==> result[|bindings| + i].View() == Role(order[i], [member])
  {
    result, order := bindings, [];
    var rest := leftover;
    while rest != {}
      invariant rest <= leftover && OrderOf(order, leftover - rest)
      invariant |result| == |bindings| + |order| && result[..|bindings|] == bindings && fresh(result[|bindings|..])
      invariant forall i :: 0 <= i < |order| ==> result[|bindings| + i].View() == Role(order[i], [member])
      decreases rest
    {
      var role := Pick(rest);
      var b := new Binding(role, [member]);
      assert (result + [b])[|bindings|..] == result[|bindings|..] + [b];
      result, order, rest := result + [b], order + [role], rest - {role};
    }
  }

  // ---------------------------------------------------------------- what the rewrite means

  lemma {:induction false} RemoveAbsent(members: seq<string>, m: string)
    requires m !in members
    ensures RemoveFirst(members, m) == members
  {
    if members != [] { RemoveAbsent(members[1..], m); }
  }

  lemma {:induction false} CountIs(members: seq<string>, m: string)
    ensures Count(members, m) > 0 <==> m in members
    ensures Count(RemoveFirst(members, m), m) == if m in members then Count(members, m) - 1 else 0
  {
    if members != [] {
      CountIs(members[1..], m);
      assert members == [members[0]] + members[1..];
      if members[0] != m {
        assert RemoveFirst(members, m)[1..] == RemoveFirst(members[1..], m);
      }
    }
  }

  lemma {:induction false} CountAppend(members: seq<string>, m: string)
    ensures Count(members + [m], m) == Count(members, m) + 1
  {
    if members != [] {
      CountAppend(members[1..], m);
      assert (members + [m])[1..] == members[1..] + [m];
    } else {
      assert [] + [m] == [m];
    }
  }

  lemma {:induction false} OthersKept(members: seq<string>, m: string)
    ensures Others(RemoveFirst(members, m), m) == Others(members, m)
    ensures Others(members + [m], m) == Others(members, m)
  {
    if members != [] {
      OthersKept(members[1..], m);
      assert (members + [m])[1..] == members[1..] + [m];
      if members[0] != m {
        assert RemoveFirst(members, m)[1..] == RemoveFirst(members[1..], m);
      }
    } else {
      assert [] + [m] == [m] && [m][1..] == [];
    }
  }

  /** No binding is dropped, renamed or moved, and in each one the other members stay as they were. */
  lemma {:induction false} OtherMembersUnchanged(roles: seq<Role>, member: string, wanted: set<string>, i: nat)
    requires i < |roles|
    ensures var r := Loop(roles, member, wanted)[i];
            r.name == roles[i].name && Others(r.members, member) == Others(roles[i].members, member)
  {
    OthersKept(roles[i].members, member);
  }

  ghost predicate Holds(roles: seq<Role>, member: string, role: string) {
    exists r :: r in roles && r.name == role && member in r.members
  }

  ghost predicate ListedTwice(roles: seq<Role>, member: string, role: string) {
    exists r :: r in roles && r.name == role && Count(r.members, member) >= 2
  }

  lemma {:induction false} FirstOfName(roles: seq<Role>, name: string) returns (i: nat)
    requires name in NamesOf(roles)
    ensures i < |roles| && roles[i].name == name && name !in NamesOf(roles[..i])
    decreases |roles|
  {
    if roles[0].name == name {
      i := 0;
    } else {
      assert roles == [roles[0]] + roles[1..];
      var k := FirstOfName(roles[1..], name);
      i := k + 1;
      assert roles[..i] == [roles[0]] + roles[1..][..k];
    }
  }

  lemma {:induction false} PatchOneHolds(r: Role, member: string, wanted: set<string>)
    ensures member in PatchOne(r, member, wanted).members <==> r.name in wanted || Count(r.members, member) >= 2
    ensures Count(r.members, member) <= 1 ==> Count(PatchOne(r, member, wanted).members, member) <= 1
  {
    CountIs(r.members, member);
    CountIs(RemoveFirst(r.members, member), member);
    CountAppend(r.members, member);
  }

  lemma {:induction false} HeldAt(roles: seq<Role>, member: string, wanted: set<string>, i: nat)
    requires i < |roles|
    ensures member in PatchedAt(roles, i, member, wanted).members <==>
            (roles[i].name in wanted && roles[i].name !in NamesOf(roles[..i])) || Count(roles[i].members, member) >= 2
  {
    PatchOneHolds(roles[i], member, wanted - NamesOf(roles[..i]));
  }

  lemma {:induction false} HoldsOnlyIf(roles: seq<Role>, member: string, wanted: set<string>, order: seq<string>, role: string)
    requires OrderOf(order, wanted - NamesOf(roles)) && Holds(Patched(roles, member, wanted, order), member, role)
    ensures role in wanted || ListedTwice(roles, member, role)
  {
    var patched := Patched(roles, member, wanted, order);
    var i := HolderOf(patched, member, role);
    HeldAtOnlyIf(roles, member, wanted, order, i);
  }

  lemma {:induction false} HolderOf(roles: seq<Role>, member: string, role: string) returns (i: nat)
    requires Holds(roles, member, role)
    ensures i < |roles| && roles[i].name == role && member in roles[i].members
  {
    var r :| r in roles && r.name == role && member in r.members;
    i :| 0 <= i < |roles| && roles[i] == r;
  }

  lemma {:induction false} HeldAtOnlyIf(roles: seq<Role>, member: string, wanted: set<string>, order: seq<string>, i: nat)
    requires OrderOf(order, wanted - NamesOf(roles)) && i < |roles| + |order|
    requires member in Patched(roles, member, wanted, order)[i].members
    ensures var name := Patched(roles, member, wanted, order)[i].name; name in wanted || ListedTwice(roles, member, name)
  {
    if i < |roles| {
      HeldInLoop(roles, member, wanted, i);
    } else {
      AddedWanted(order, wanted - NamesOf(roles), i - |roles|);
    }
  }

  lemma {:induction false} AddedWanted(order: seq<string>, leftover: set<string>, k: nat)
    requires OrderOf(order, leftover) && k < |order|
    ensures order[k] in leftover
  {
    assert order[k] in order;
  }

  lemma {:induction false} HeldInLoop(roles: seq<Role>, member: string, wanted: set<string>, i: nat)
    requires i < |roles| && member in PatchedAt(roles, i, member, wanted).members
    ensures roles[i].name in wanted || ListedTwice(roles, member, roles[i].name)
  {
    HeldAt(roles, member, wanted, i);
    assert roles[i] in roles;
  }

  lemma {:induction false} HoldsIfWanted(roles: seq<Role>, member: string, wanted: set<string>, order: seq<string>, role: string)
    requires OrderOf(order, wanted - NamesOf(roles)) && role in wanted
    ensures Holds(Patched(roles, member, wanted, order), member, role)
  {
    var patched := Patched(roles, member, wanted, order);
    if role in NamesOf(roles) {
      var i := FirstOfName(roles, role);
      HeldAt(roles, member, wanted, i);
      assert patched[i] in patched;
    } else {
      assert role in order;
      var k :| 0 <= k < |order| && order[k] == role;
      assert patched[|roles| + k] == Role(role, [member]) && patched[|roles| + k] in patched;
    }
  }

  /** After the patch the member holds a role exactly when the patch names it, except where a
      binding of a role it does not name lists the member twice: only the first one goes. */
  lemma {:induction false} HoldsIff(roles: seq<Role>, member: string, wanted: set<string>, order: seq<string>, role: string)
    requires OrderOf(order, wanted - NamesOf(roles))
    ensures Holds(Patched(roles, member, wanted, order), member, role) <==> role in wanted || ListedTwice(roles, member, role)
  {
    var patched := Patched(roles, member, wanted, order);
    if Holds(patched, member, role) { HoldsOnlyIf(roles, member, wanted, order, role); }
    if role in wanted {
      HoldsIfWanted(roles, member, wanted, order, role);
    } else if ListedTwice(roles, member, role) {
      var r :| r in roles && r.name == role && Count(r.members, member) >= 2;
      var i :| 0 <= i < |roles| && roles[i] == r;
      HeldAt(roles, member, wanted, i);
      assert patched[i] in patched;
    }
  }

  ghost predicate ListedOnce(roles: seq<Role>, member: string) {
    forall r :: r in roles ==> Count(r.members, member) <= 1
  }

  /** The patch gives the member exactly the roles it names, whatever the bindings and the order,
      if and only if no binding of another role lists the member twice. */
  lemma {:induction false} ExactlyTheRoles(roles: seq<Role>, member: string, wanted: set<string>, order: seq<string>)
    requires OrderOf(order, wanted - NamesOf(roles))
    ensures (forall role :: Holds(Patched(roles, member, wanted, order), member, role) <==> role in wanted)
            <==> forall r :: r in roles && r.name !in wanted ==> Count(r.members, member) <= 1
  {
    forall role ensures Holds(Patched(roles, member, wanted, order), member, role) <==> role in wanted || ListedTwice(roles, member, role) {
      HoldsIff(roles, member, wanted, order, role);
    }
    forall r | r in roles && r.name !in wanted && Count(r.members, member) >= 2
      ensures Holds(Patched(roles, member, wanted, order), member, r.name)
    {
      assert ListedTwice(roles, member, r.name);
    }
  }

  lemma {:induction false} SameNames(roles: seq<Role>, others: seq<Role>)
    requires |roles| == |others| && forall i :: 0 <= i < |roles| ==> roles[i].name == others[i].name
    ensures NamesOf(roles) == NamesOf(others)
  {
    forall name | name in NamesOf(roles) ensures name in NamesOf(others) {
      var r :| r in roles && r.name == name;
      var i :| 0 <= i < |roles| && roles[i] == r;
      assert others[i] in others;
    }
    forall name | name in NamesOf(others) ensures name in NamesOf(roles) {
      var r :| r in others && r.name == name;
      var i :| 0 <= i < |others| && others[i] == r;
      assert roles[i] in roles;
    }
  }

  lemma {:induction false} PatchOneAgain(r: Role, member: string, wanted: set<string>)
    requires Count(r.members, member) <= 1
    ensures PatchOne(PatchOne(r, member, wanted), member, wanted) == PatchOne(r, member, wanted)
  {
    var once := PatchOne(r, member, wanted);
    PatchOneHolds(r, member, wanted);
    CountIs(r.members, member);
    if r.name !in wanted { RemoveAbsent(once.members, member); }
  }

  /** Patching again changes nothing, when no binding lists the member twice. */
  lemma {:induction false} PatchIdempotent(roles: seq<Role>, member: string, wanted: set<string>, order: seq<string>, again: seq<string>)
    requires ListedOnce(roles, member) && OrderOf(order, wanted - NamesOf(roles))
    requires OrderOf(again, wanted - NamesOf(Patched(roles, member, wanted, order)))
    ensures var once := Patched(roles, member, wanted, order); Patched(once, member, wanted, again) == once
  {
    var once := Patched(roles, member, wanted, order);
    forall i | 0 <= i < |once| ensures PatchedAt(once, i, member, wanted) == once[i] {
      if i < |roles| {
        SameNames(once[..i], roles[..i]);
        assert roles[i] in roles;
        PatchOneAgain(roles[i], member, wanted - NamesOf(roles[..i]));
      } else {
        AddedStays(roles, member, wanted, order, i - |roles|);
      }
    }
    forall role | role in wanted ensures role in NamesOf(once) {
      NoneLeft(roles, member, wanted, order, role);
    }
    HeadIsIn(again);
    assert Loop(once, member, wanted) == once && Added(again, member) == [];
  }

  lemma {:induction false} HeadIsIn(s: seq<string>)
    ensures s != [] ==> s[0] in s
  {
  }

  lemma {:induction false} AddedStays(roles: seq<Role>, member: string, wanted: set<string>, order: seq<string>, k: nat)
    requires OrderOf(order, wanted - NamesOf(roles)) && k < |order|
    ensures var once := Patched(roles, member, wanted, order);
            PatchedAt(once, |roles| + k, member, wanted) == once[|roles| + k]
  {
    var once := Patched(roles, member, wanted, order);
    assert once[|roles| + k] == Role(order[k], [member]) && order[k] in order;
    forall r | r in once[..|roles| + k] ensures r.name != order[k] {
      var i :| 0 <= i < |roles| + k && once[i] == r;
      if i < |roles| {
        assert roles[i] in roles && roles[i].name in NamesOf(roles);
      }
    }
  }

  lemma {:induction false} NoneLeft(roles: seq<Role>, member: string, wanted: set<string>, order: seq<string>, role: string)
    requires OrderOf(order, wanted - NamesOf(roles)) && role in wanted
    ensures role in NamesOf(Patched(roles, member, wanted, order))
  {
    HoldsIff(roles, member, wanted, order, role);
  }
}
