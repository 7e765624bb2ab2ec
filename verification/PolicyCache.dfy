/** The policies of backend/store/policy.go behind their cache, keyed as in
    backend/store/store.go: whatever the cache holds or forgets, every call answers as the table
    alone would. */
module PolicyCache {
  import opened Options
  import opened Strings

  type Workspace = w: string | SlashFree(w) witness ""

  datatype ResourceType = RESOURCE_UNSPECIFIED | WORKSPACE | ENVIRONMENT | PROJECT

  datatype PolicyType = TYPE_UNSPECIFIED | ROLLOUT | MASKING_EXEMPTION | QUERY_DATA | MASKING_RULE | IAM | TAG

  /** The table's primary key; the workspace is not part of it. */
  datatype Id = Id(resourceType: ResourceType, resource: string, policyType: PolicyType)

  datatype Policy = Policy(workspace: Workspace, id: Id, payload: string, inherit: bool, enforce: bool)

  // ---------------------------------------------------------------- the cache key

  function ResourceTypeName(t: ResourceType): (s: string)
    ensures SlashFree(s)
  {
    match t
    case RESOURCE_UNSPECIFIED => "RESOURCE_UNSPECIFIED"
    case WORKSPACE => "WORKSPACE"
    case ENVIRONMENT => "ENVIRONMENT"
    case PROJECT => "PROJECT"
  }

  function PolicyTypeName(t: PolicyType): (s: string)
    ensures SlashFree(s)
  {
    match t
    case TYPE_UNSPECIFIED => "TYPE_UNSPECIFIED"
    case ROLLOUT => "ROLLOUT"
    case MASKING_EXEMPTION => "MASKING_EXEMPTION"
    case QUERY_DATA => "QUERY_DATA"
    case MASKING_RULE => "MASKING_RULE"
    case IAM => "IAM"
    case TAG => "TAG"
  }

  lemma {:induction false} NamesDiffer(a: ResourceType, b: ResourceType)
    ensures ResourceTypeName(a) == ResourceTypeName(b) ==> a == b
  {
    assert ResourceTypeName(a)[0] == ResourceTypeName(b)[0] ==> a == b;
  }

  lemma {:induction false} TypeNamesDiffer(a: PolicyType, b: PolicyType)
    ensures PolicyTypeName(a) == PolicyTypeName(b) ==> a == b
  {
    assert |PolicyTypeName(a)| == |PolicyTypeName(b)| && PolicyTypeName(a)[0] == PolicyTypeName(b)[0] ==> a == b;
  }

  /** getPolicyCacheKey: workspaces/{workspace}/policies/{resource type}/{resource}/{policy type}. */
  function KeyText(workspace: string, id: Id): string {
    Path(["workspaces", workspace, "policies", ResourceTypeName(id.resourceType), id.resource, PolicyTypeName(id.policyType)])
  }

  function Key(workspace: Workspace, id: Id): string { KeyText(workspace, id) }

  /** The key one segment at a time. */
  lemma {:induction false} KeySegments(workspace: string, id: Id)
    ensures KeyText(workspace, id) == "workspaces" + "/" + (workspace + "/" + ("policies" + "/" +
              (ResourceTypeName(id.resourceType) + "/" + (id.resource + "/" + PolicyTypeName(id.policyType)))))
  {
    SixSegments("workspaces", workspace, "policies", ResourceTypeName(id.resourceType), id.resource, PolicyTypeName(id.policyType));
  }

  lemma {:induction false} SixSegments(a: string, b: string, c: string, d: string, e: string, f: string)
    ensures Path([a, b, c, d, e, f]) == a + "/" + (b + "/" + (c + "/" + (d + "/" + (e + "/" + f))))
  {
    assert [e, f][1..] == [f] && [d, e, f][1..] == [e, f] && [c, d, e, f][1..] == [d, e, f];
    assert [b, c, d, e, f][1..] == [c, d, e, f] && [a, b, c, d, e, f][1..] == [b, c, d, e, f];
    assert Path([e, f]) == e + "/" + f;
    assert Path([d, e, f]) == d + "/" + Path([e, f]);
    assert Path([c, d, e, f]) == c + "/" + Path([d, e, f]);
    assert Path([b, c, d, e, f]) == b + "/" + Path([c, d, e, f]);
  }

  lemma {:induction false} CutAtFirstSlash(a: string, x: string, b: string, y: string)
    requires SlashFree(a) && SlashFree(b) && a + "/" + x == b + "/" + y
    ensures a == b && x == y
  {
    var s := a + "/" + x;
    FirstSlash(a, x);
    FirstSlash(b, y);
    assert s[..|a|] == a && (b + "/" + y)[..|b|] == b;
    assert s[|a|+1..] == x && (b + "/" + y)[|b|+1..] == y;
  }

  lemma {:induction false} LastSlash(x: string, a: string)
    requires SlashFree(a)
    ensures (x + "/" + a)[|x|] == '/' && forall k :: |x| < k < |x + "/" + a| ==> (x + "/" + a)[k] != '/'
  {
  }

  lemma {:induction false} CutAtLastSlash(x: string, a: string, y: string, b: string)
    requires SlashFree(a) && SlashFree(b) && x + "/" + a == y + "/" + b
    ensures x == y && a == b
  {
    var s, t := x + "/" + a, y + "/" + b;
    LastSlash(x, a);
    LastSlash(y, b);
    assert s[..|x|] == x && t[..|y|] == y;
    assert s[|x|+1..] == a && t[|y|+1..] == b;
  }

  lemma {:induction false} DropHead(head: string, x: string, y: string)
    requires head + x == head + y
    ensures x == y
  {
    assert (head + x)[|head|..] == x && (head + y)[|head|..] == y;
  }

  /** Two policies of slash-free workspaces never share a key. */
  lemma {:induction false} KeyInjective(v: Workspace, i: Id, w: Workspace, j: Id)
    requires Key(v, i) == Key(w, j)
    ensures v == w && i == j
  {
    KeySegments(v, i);
    KeySegments(w, j);
    CutKeys("workspaces" + "/", "policies" + "/", v, ResourceTypeName(i.resourceType), i.resource, PolicyTypeName(i.policyType),
            w, ResourceTypeName(j.resourceType), j.resource, PolicyTypeName(j.policyType));
    NamesDiffer(i.resourceType, j.resourceType);
    TypeNamesDiffer(i.policyType, j.policyType);
  }

  lemma {:induction false} CutKeys(head: string, middle: string, v: string, a: string, r: string, t: string, w: string, b: string, s: string, u: string)
    requires SlashFree(v) && SlashFree(w) && SlashFree(a) && SlashFree(b) && SlashFree(t) && SlashFree(u)
    requires head + (v + "/" + (middle + (a + "/" + (r + "/" + t)))) == head + (w + "/" + (middle + (b + "/" + (s + "/" + u))))
    ensures v == w && a == b && r == s && t == u
  {
    DropHead(head, v + "/" + (middle + (a + "/" + (r + "/" + t))), w + "/" + (middle + (b + "/" + (s + "/" + u))));
    CutAtFirstSlash(v, middle + (a + "/" + (r + "/" + t)), w, middle + (b + "/" + (s + "/" + u)));
    DropHead(middle, a + "/" + (r + "/" + t), b + "/" + (s + "/" + u));
    CutAtFirstSlash(a, r + "/" + t, b, s + "/" + u);
    CutAtLastSlash(r, t, s, u);
  }

  /** `w` is `v` with, behind a slash, the beginning of the rest of v's key: a part of its resource
      has moved into the workspace. */
  ghost predicate Extends(v: string, i: Id, w: string, j: Id) {
    exists p :: w + "/" == v + "/" + ("policies/" + (ResourceTypeName(i.resourceType) + "/" + p)) && MovedOver(i, j, p)
  }

  predicate MovedOver(i: Id, j: Id, p: string) {
    i.resource == p + ("policies/" + (ResourceTypeName(j.resourceType) + "/" + j.resource)) && i.policyType == j.policyType
  }

  /** The key up to the last slash, without its first word. */
  function Stem(w: string, t: string, r: string): string { w + "/" + ("policies/" + (t + "/" + r)) }

  lemma {:induction false} KeyOfStem(w: string, i: Id)
    ensures KeyText(w, i) == "workspaces/" + (Stem(w, ResourceTypeName(i.resourceType), i.resource) + "/" + PolicyTypeName(i.policyType))
  {
    KeySegments(w, i);
    Regroup(w, "policies" + "/", ResourceTypeName(i.resourceType), i.resource, PolicyTypeName(i.policyType));
    assert "workspaces" + "/" == "workspaces/" && "policies" + "/" == "policies/";
  }

  lemma {:induction false} Regroup(w: string, q: string, a: string, r: string, t: string)
    ensures w + "/" + (q + (a + "/" + (r + "/" + t))) == (w + "/" + (q + (a + "/" + r))) + "/" + t
  {
  }

  lemma {:induction false} KeysEqualIffStems(v: string, i: Id, w: string, j: Id)
    ensures KeyText(v, i) == KeyText(w, j) <==>
            i.policyType == j.policyType &&
            Stem(v, ResourceTypeName(i.resourceType), i.resource) == Stem(w, ResourceTypeName(j.resourceType), j.resource)
  {
    KeyOfStem(v, i);
    KeyOfStem(w, j);
    var x, y := Stem(v, ResourceTypeName(i.resourceType), i.resource), Stem(w, ResourceTypeName(j.resourceType), j.resource);
    if KeyText(v, i) == KeyText(w, j) {
      DropHead("workspaces/", x + "/" + PolicyTypeName(i.policyType), y + "/" + PolicyTypeName(j.policyType));
      CutAtLastSlash(x, PolicyTypeName(i.policyType), y, PolicyTypeName(j.policyType));
      TypeNamesDiffer(i.policyType, j.policyType);
    }
  }

  /** A resource type is not called `policies`. */
  lemma {:induction false} TypeStartsUpper(t: ResourceType)
    ensures ResourceTypeName(t) != "" && ResourceTypeName(t)[0] != 'p'
  {
  }

  /** Of two equal stems with workspaces of different lengths, the longer workspace reaches past
      the shorter one's resource type. */
  lemma {:induction false} LongerReaches(v: string, a: string, r: string, w: string, b: string, s: string)
    requires Stem(v, a, r) == Stem(w, b, s) && |v| < |w| && SlashFree(a) && a != "" && a[0] != 'p'
    ensures |w| + 1 >= |v + "/" + ("policies/" + (a + "/"))|
  {
    var x, d := Stem(v, a, r), |w| - |v|;
    var rest := "/" + ("policies/" + (a + "/" + r));
    assert x == v + rest && x == w + ("/" + ("policies/" + (b + "/" + s)));
    assert rest[d] == x[|w|] == '/';
    assert rest[9] == '/' && rest[10] == a[0];
    assert x[|w| + 1] == 'p' && x[|v| + 10] == a[0];
    assert forall k :: 1 <= k < 9 ==> rest[k] == "policies"[k-1];
    assert forall k :: 10 <= k < 10 + |a| ==> rest[k] == a[k-10];
  }

  lemma {:induction false} EqualStemsExtend(v: string, i: Id, w: string, j: Id)
    requires Stem(v, ResourceTypeName(i.resourceType), i.resource) == Stem(w, ResourceTypeName(j.resourceType), j.resource)
    requires |v| < |w| && i.policyType == j.policyType
    ensures Extends(v, i, w, j)
  {
    var a, b := ResourceTypeName(i.resourceType), ResourceTypeName(j.resourceType);
    TypeStartsUpper(i.resourceType);
    LongerReaches(v, a, i.resource, w, b, j.resource);
    var head := v + "/" + ("policies/" + (a + "/"));
    var x := Stem(v, a, i.resource);
    assert x == head + i.resource && x == (w + "/") + ("policies/" + (b + "/" + j.resource));
    var p := x[|head|..|w| + 1];
    CutInside(x, head, i.resource, w + "/", "policies/" + (b + "/" + j.resource));
    assert head + p == v + "/" + ("policies/" + (a + "/" + p));
    assert MovedOver(i, j, p);
  }

  /** Two ways to cut one text: what lies between the cuts. */
  lemma {:induction false} CutInside(x: string, head: string, tail: string, head': string, tail': string)
    requires x == head + tail && x == head' + tail' && |head| <= |head'|
    ensures head' == head + x[|head|..|head'|] && tail == x[|head|..|head'|] + tail'
  {
    assert head == x[..|head|] && head' == x[..|head'|] && tail == x[|head|..] && tail' == x[|head'|..];
  }

  lemma {:induction false} ExtendedStemsEqual(v: string, i: Id, w: string, j: Id)
    requires Extends(v, i, w, j)
    ensures Stem(v, ResourceTypeName(i.resourceType), i.resource) == Stem(w, ResourceTypeName(j.resourceType), j.resource)
  {
    var a, b := ResourceTypeName(i.resourceType), ResourceTypeName(j.resourceType);
    var p :| w + "/" == v + "/" + ("policies/" + (a + "/" + p)) && MovedOver(i, j, p);
    var rest := "policies/" + (b + "/" + j.resource);
    assert Stem(w, b, j.resource) == (w + "/") + rest;
    PushIn(v, "policies/", a, p, rest);
  }

  lemma {:induction false} PushIn(v: string, q: string, a: string, p: string, rest: string)
    ensures v + "/" + (q + (a + "/" + p)) + rest == v + "/" + (q + (a + "/" + (p + rest)))
  {
  }

  /** Two keys are equal exactly when they are for one policy, or one workspace extends the other:
      by `/policies/`, the resource type, and a beginning of the resource. With slash-free
      workspaces that cannot be. */
  lemma {:induction false} KeysEqualIff(v: string, i: Id, w: string, j: Id)
    ensures KeyText(v, i) == KeyText(w, j) <==> (v == w && i == j) || Extends(v, i, w, j) || Extends(w, j, v, i)
  {
    KeysEqualIffStems(v, i, w, j);
    var a, b := ResourceTypeName(i.resourceType), ResourceTypeName(j.resourceType);
    if KeyText(v, i) == KeyText(w, j) {
      if |v| < |w| {
        EqualStemsExtend(v, i, w, j);
      } else if |w| < |v| {
        EqualStemsExtend(w, j, v, i);
      } else {
        SameLength(v, a, i.resource, w, b, j.resource);
        NamesDiffer(i.resourceType, j.resourceType);
      }
    }
    if Extends(v, i, w, j) { ExtendedStemsEqual(v, i, w, j); }
    if Extends(w, j, v, i) { ExtendedStemsEqual(w, j, v, i); }
  }

  /** With a slash in a workspace it can. */
  lemma {:induction false} KeysCollide(w: string, r: string, s: string, t: PolicyType)
    ensures KeyText(w, Id(WORKSPACE, r + "/" + ("policies/" + ("PROJECT" + "/" + s)), t)) ==
            KeyText(w + "/" + ("policies/" + ("WORKSPACE" + "/" + r)), Id(PROJECT, s, t))
  {
    var i, j := Id(WORKSPACE, r + "/" + ("policies/" + ("PROJECT" + "/" + s)), t), Id(PROJECT, s, t);
    var longer := w + "/" + ("policies/" + ("WORKSPACE" + "/" + r));
    assert longer + "/" == w + "/" + ("policies/" + ("WORKSPACE" + "/" + (r + "/")));
    assert MovedOver(i, j, r + "/");
    assert Extends(w, i, longer, j);
    KeysEqualIff(w, i, longer, j);
  }

  lemma {:induction false} SameLength(v: string, a: string, r: string, w: string, b: string, s: string)
    requires Stem(v, a, r) == Stem(w, b, s) && |v| == |w| && SlashFree(a) && SlashFree(b)
    ensures v == w && a == b && r == s
  {
    var x, y := "/" + ("policies/" + (a + "/" + r)), "/" + ("policies/" + (b + "/" + s));
    assert Stem(v, a, r) == v + x && Stem(w, b, s) == w + y;
    assert (v + x)[..|v|] == v && (w + y)[..|w|] == w;
    DropHead(v, x, y);
    DropHead("/", "policies/" + (a + "/" + r), "policies/" + (b + "/" + s));
    DropHead("policies/", a + "/" + r, b + "/" + s);
    CutAtFirstSlash(a, r, b, s);
  }

  // ---------------------------------------------------------------- the table alone

  datatype Find = Find(workspace: Workspace, resourceType: Option<ResourceType>, resource: Option<string>,
                       policyType: Option<PolicyType>, showAll: bool)

  predicate Matches(p: Policy, f: Find) {
    && p.workspace == f.workspace
    && (f.resourceType.Some? ==> p.id.resourceType == f.resourceType.value)
    && (f.resource.Some? ==> p.id.resource == f.resource.value)
    && (f.policyType.Some? ==> p.id.policyType == f.policyType.value)
    && (!f.showAll ==> p.enforce)
  }

  function Select(rows: seq<Policy>, f: Find): (found: seq<Policy>)
    ensures forall p :: p in found <==> p in rows && Matches(p, f)
  {
    if rows == [] then []
    else
      assert rows == rows[..|rows|-1] + [rows[|rows|-1]];
      Select(rows[..|rows|-1], f) + (if Matches(rows[|rows|-1], f) then [rows[|rows|-1]] else [])
  }

  /** The primary key is one. */
  predicate UniqueIds(rows: seq<Policy>) { forall i, j :: 0 <= i < j < |rows| ==> rows[i].id != rows[j].id }

  function Lookup(rows: seq<Policy>, workspace: Workspace, id: Id): Option<Policy> {
    if rows == [] then None
    else if rows[|rows|-1].workspace == workspace && rows[|rows|-1].id == id then Some(rows[|rows|-1])
    else Lookup(rows[..|rows|-1], workspace, id)
  }

  datatype Reply = Got(policy: Option<Policy>) | Listed(policies: seq<Policy>) | Done | Failed

  datatype Patch = Patch(inherit: Option<bool>, payload: Option<string>, enforce: Option<bool>)

  function Patched(p: Policy, patch: Patch): Policy {
    p.(inherit := if patch.inherit.Some? then patch.inherit.value else p.inherit,
       payload := if patch.payload.Some? then patch.payload.value else p.payload,
       enforce := if patch.enforce.Some? then patch.enforce.value else p.enforce)
  }

  /** The row with the id is replaced. */
  function Replace(rows: seq<Policy>, p: Policy): (rows': seq<Policy>)
    ensures |rows'| == |rows| && forall i :: 0 <= i < |rows| ==> rows'[i] == if rows[i].id == p.id then p else rows[i]
  {
    seq(|rows|, i requires 0 <= i < |rows| => if rows[i].id == p.id then p else rows[i])
  }

  function Without(rows: seq<Policy>, workspace: Workspace, id: Id): seq<Policy> {
    if rows == [] then []
    else
      var last := rows[|rows|-1];
      Without(rows[..|rows|-1], workspace, id) + (if last.workspace == workspace && last.id == id then [] else [last])
  }

  predicate IdTaken(rows: seq<Policy>, id: Id) { exists p :: p in rows && p.id == id }

  datatype Op =
    | Get(find: Find) | List(find: Find) | Create(policy: Policy)
    | Update(workspace: Workspace, id: Id, patch: Patch) | Delete(workspace: Workspace, id: Id)
    | Evict(key: string)

  /** What an operation does to the table and answers, without any cache. An insert whose id
      another workspace has breaks the primary key. */
  function Apply(rows: seq<Policy>, op: Op): (seq<Policy>, Reply) {
    match op
    case Get(find) =>
      var found := Select(rows, find.(showAll := true));
      (rows, if |found| == 0 then Got(None) else if |found| > 1 then Failed else Got(Some(found[0])))
    case List(find) => (rows, Listed(Select(rows, find)))
    case Create(p) =>
      if p.workspace == "" then (rows, Failed)
      else if Lookup(rows, p.workspace, p.id).Some? then (Replace(rows, p), Got(Some(p)))
      else if IdTaken(rows, p.id) then (rows, Failed)
      else (rows + [p], Got(Some(p)))
    case Update(workspace, id, patch) =>
      (match Lookup(rows, workspace, id)
       case None => (rows, Got(None))
       case Some(p) => (Replace(rows, Patched(p, patch)), Got(Some(Patched(p, patch)))))
    case Delete(workspace, id) => (Without(rows, workspace, id), Done)
    case Evict(_) => (rows, Done)
  }

  function ApplyAll(rows: seq<Policy>, ops: seq<Op>): (seq<Policy>, seq<Reply>)
    decreases |ops|
  {
    if ops == [] then (rows, [])
    else
      var (before, replies) := ApplyAll(rows, ops[..|ops|-1]);
      var (after, reply) := Apply(before, ops[|ops|-1]);
      (after, replies + [reply])
  }

  // ---------------------------------------------------------------- what the table's calls mean

  /** A list has exactly the policies of the workspace that agree with every part given, without
      the ones not enforced unless all are asked for. */
  lemma {:induction false} ListMeans(rows: seq<Policy>, f: Find)
    ensures var (rows', r) := Apply(rows, List(f));
            && rows' == rows && r.Listed?
            && forall p :: p in r.policies <==> p in rows && Agrees(p, f) && (f.showAll || p.enforce)
  {
    forall p ensures p in Select(rows, f) <==> p in rows && Agrees(p, f) && (f.showAll || p.enforce) {
      assert Matches(p, f) <==> Agrees(p, f) && (f.showAll || p.enforce);
    }
  }

  /** The policy is of the workspace, and agrees with every part given. */
  ghost predicate Agrees(p: Policy, f: Find) {
    && p.workspace == f.workspace && (f.resourceType == None || f.resourceType == Some(p.id.resourceType))
    && (f.resource == None || f.resource == Some(p.id.resource)) && (f.policyType == None || f.policyType == Some(p.id.policyType))
  }

  /** What a get answers of the policies that agree with every part given, enforced or not: the one,
      nothing if there is none, and a failure if there are several. */
  ghost predicate GetAnswer(rows: seq<Policy>, f: Find, r: Reply) {
    match r
    case Got(None) => forall p :: p in rows ==> !Agrees(p, f)
    case Got(Some(p)) => p in rows && Agrees(p, f) && forall q :: q in rows && Agrees(q, f) ==> q == p
    case Failed => exists p, q :: p in rows && q in rows && Agrees(p, f) && Agrees(q, f) && p != q
    case _ => false
  }

  lemma {:induction false} GetMeans(rows: seq<Policy>, f: Find)
    requires UniqueIds(rows)
    ensures var (rows', r) := Apply(rows, Get(f)); rows' == rows && GetAnswer(rows, f, r)
  {
    var found := Select(rows, f.(showAll := true));
    SelectUnique(rows, f.(showAll := true));
    Selected(rows, f, found);
    if |found| > 1 { SeveralAgree(rows, f, found[0], found[1]); }
  }

  lemma {:induction false} Selected(rows: seq<Policy>, f: Find, found: seq<Policy>)
    requires found == Select(rows, f.(showAll := true))
    ensures forall p :: p in rows && Agrees(p, f) <==> p in found
    ensures |found| == 1 ==> forall p :: p in found <==> p == found[0]
  {
    assert forall p :: Matches(p, f.(showAll := true)) <==> Agrees(p, f);
  }

  lemma {:induction false} SeveralAgree(rows: seq<Policy>, f: Find, p: Policy, q: Policy)
    requires p in rows && q in rows && Agrees(p, f) && Agrees(q, f) && p.id != q.id
    ensures GetAnswer(rows, f, Failed)
  {
  }

  /** The one policy has become `q`: each field given, and no other, has changed; the other policies
      are as they were. */
  ghost predicate UpdatedTo(rows: seq<Policy>, rows': seq<Policy>, patch: Patch, q: Policy) {
    && q in rows'
    && (patch.inherit.Some? ==> q.inherit == patch.inherit.value)
    && (patch.payload.Some? ==> q.payload == patch.payload.value)
    && (patch.enforce.Some? ==> q.enforce == patch.enforce.value)
    && (forall p :: p in rows && p.workspace == q.workspace && p.id == q.id ==>
          && (patch.inherit.None? ==> q.inherit == p.inherit) && (patch.payload.None? ==> q.payload == p.payload)
          && (patch.enforce.None? ==> q.enforce == p.enforce))
    && (forall p: Policy :: !(p.workspace == q.workspace && p.id == q.id) ==> (p in rows <==> p in rows'))
    && (forall p :: p in rows' && p.workspace == q.workspace && p.id == q.id ==> p == q)
  }

  /** An update of an absent policy creates none. */
  lemma {:induction false} UpdateMeans(rows: seq<Policy>, workspace: Workspace, id: Id, patch: Patch)
    requires UniqueIds(rows)
    ensures var (rows', r) := Apply(rows, Update(workspace, id, patch));
            if exists p :: p in rows && p.workspace == workspace && p.id == id then
              r.Got? && r.policy.Some? && r.policy.value.workspace == workspace && r.policy.value.id == id
              && UpdatedTo(rows, rows', patch, r.policy.value)
            else rows' == rows && r == Got(None)
  {
    LookupIs(rows, workspace, id);
    var was := Lookup(rows, workspace, id);
    assert forall p :: p in rows && p.workspace == workspace && p.id == id <==> was == Some(p);
    if was.Some? {
      assert was.value in rows && was.value.workspace == workspace && was.value.id == id;
      PatchedMeans(rows, was.value, patch);
    }
  }

  lemma {:induction false} PatchedMeans(rows: seq<Policy>, p: Policy, patch: Patch)
    requires UniqueIds(rows) && p in rows
    ensures Lookup(rows, p.workspace, p.id) == Some(p) && UpdatedTo(rows, Replace(rows, Patched(p, patch)), patch, Patched(p, patch))
  {
    var q := Patched(p, patch);
    LookupIs(rows, p.workspace, p.id);
    ReplaceIs(rows, q);
    LookupIs(Replace(rows, q), p.workspace, p.id);
    OthersReplaced(rows, q);
  }

  lemma {:induction false} OthersReplaced(rows: seq<Policy>, q: Policy)
    requires UniqueIds(rows) && Lookup(rows, q.workspace, q.id).Some?
    ensures forall p: Policy :: !(p.workspace == q.workspace && p.id == q.id) ==> (p in rows <==> p in Replace(rows, q))
  {
    var rows' := Replace(rows, q);
    var was := Lookup(rows, q.workspace, q.id).value;
    LookupIs(rows, q.workspace, q.id);
    var k :| 0 <= k < |rows| && rows[k] == was;
    forall i | 0 <= i < |rows| && i != k ensures rows'[i] == rows[i] {
      assert i < k ==> rows[i].id != rows[k].id;
    }
    forall p: Policy | !(p.workspace == q.workspace && p.id == q.id) ensures p in rows <==> p in rows' {
      if p in rows { var i :| 0 <= i < |rows| && rows[i] == p; assert rows'[i] == p; }
      if p in rows' { var i :| 0 <= i < |rows'| && rows'[i] == p; assert rows[i] == p; }
    }
  }

  /** A delete takes that policy away, and no other. */
  lemma {:induction false} DeleteMeans(rows: seq<Policy>, workspace: Workspace, id: Id)
    ensures var (rows', r) := Apply(rows, Delete(workspace, id));
            forall p :: p in rows' <==> p in rows && !(p.workspace == workspace && p.id == id)
  {
    WithoutRows(rows, workspace, id);
  }

  /** A create without a workspace fails; one that fails changes nothing; else the policy is there
      as given, and every policy with another id as it was. */
  lemma {:induction false} CreateMeans(rows: seq<Policy>, p: Policy)
    requires UniqueIds(rows)
    ensures var (rows', r) := Apply(rows, Create(p));
            && (r == Failed <==> p.workspace == "" || exists q :: q in rows && q.id == p.id && q.workspace != p.workspace)
            && (r == Failed ==> rows' == rows)
            && (r != Failed ==> r == Got(Some(p)) && p in rows')
            && forall q: Policy :: q.id != p.id ==> (q in rows <==> q in rows')
  {
    if p.workspace != "" {
      CreateThenGet(rows, p);
      if Lookup(rows, p.workspace, p.id).Some? {
        OthersReplaced(rows, p);
        LookupIs(Replace(rows, p), p.workspace, p.id);
      }
    }
  }

  // ---------------------------------------------------------------- the cache agrees with it

  type Cache = map<string, Option<Policy>>

  /** Every entry, "not found" included, is what the table has under its key. */
  ghost predicate CacheOk(rows: seq<Policy>, cache: Cache) {
    forall w: Workspace, id: Id :: Key(w, id) in cache ==> cache[Key(w, id)] == Lookup(rows, w, id)
  }

  ghost predicate SameElsewhere(rows: seq<Policy>, rows': seq<Policy>, workspace: Workspace, id: Id) {
    forall w: Workspace, i: Id :: !(w == workspace && i == id) ==> Lookup(rows', w, i) == Lookup(rows, w, i)
  }

  lemma {:induction false} PutKeeps(rows: seq<Policy>, rows': seq<Policy>, cache: Cache, workspace: Workspace, id: Id)
    requires CacheOk(rows, cache) && SameElsewhere(rows, rows', workspace, id)
    ensures CacheOk(rows', cache[Key(workspace, id) := Lookup(rows', workspace, id)])
    ensures CacheOk(rows', cache - {Key(workspace, id)})
  {
    forall w: Workspace, i: Id | Key(w, i) == Key(workspace, id) ensures w == workspace && i == id {
      KeyInjective(w, i, workspace, id);
    }
  }

  lemma {:induction false} LookupIs(rows: seq<Policy>, workspace: Workspace, id: Id)
    requires UniqueIds(rows)
    ensures forall p :: p in rows && p.workspace == workspace && p.id == id <==> Lookup(rows, workspace, id) == Some(p)
  {
    if rows != [] {
      LookupIs(rows[..|rows|-1], workspace, id);
      LastRow(rows);
    }
  }

  lemma {:induction false} LastRow(rows: seq<Policy>)
    requires UniqueIds(rows) && rows != []
    ensures forall p :: p in rows <==> p in rows[..|rows|-1] || p == rows[|rows|-1]
    ensures forall p :: p in rows[..|rows|-1] ==> p.id != rows[|rows|-1].id
  {
    var init, last := rows[..|rows|-1], rows[|rows|-1];
    assert rows == init + [last];
    forall p | p in init ensures p.id != last.id {
      var i :| 0 <= i < |init| && init[i] == p;
      assert rows[i] == p;
    }
  }

  lemma {:induction false} LookupAll(rows: seq<Policy>)
    requires UniqueIds(rows)
    ensures forall w: Workspace, i: Id, p :: p in rows && p.workspace == w && p.id == i <==> Lookup(rows, w, i) == Some(p)
  {
    forall w: Workspace, i: Id, p ensures p in rows && p.workspace == w && p.id == i <==> Lookup(rows, w, i) == Some(p) {
      LookupIs(rows, w, i);
    }
  }

  lemma {:induction false} SameRowsElsewhere(rows: seq<Policy>, rows': seq<Policy>, workspace: Workspace, id: Id)
    requires UniqueIds(rows) && UniqueIds(rows')
    requires forall p: Policy :: !(p.workspace == workspace && p.id == id) ==> (p in rows <==> p in rows')
    ensures SameElsewhere(rows, rows', workspace, id)
  {
    LookupAll(rows);
    LookupAll(rows');
    forall w: Workspace, i: Id | !(w == workspace && i == id) ensures Lookup(rows', w, i) == Lookup(rows, w, i) {
      var a, b := Lookup(rows, w, i), Lookup(rows', w, i);
      assert a.Some? ==> a.value in rows' && b == a;
      assert b.Some? ==> b.value in rows && b == a;
    }
  }

  lemma {:induction false} ReplaceIs(rows: seq<Policy>, p: Policy)
    requires UniqueIds(rows) && Lookup(rows, p.workspace, p.id).Some?
    ensures var rows' := Replace(rows, p);
            UniqueIds(rows') && Lookup(rows', p.workspace, p.id) == Some(p) && SameElsewhere(rows, rows', p.workspace, p.id)
  {
    var rows' := Replace(rows, p);
    var was := Lookup(rows, p.workspace, p.id).value;
    LookupIs(rows, p.workspace, p.id);
    var k :| 0 <= k < |rows| && rows[k] == was;
    forall i | 0 <= i < |rows| && i != k ensures rows'[i] == rows[i] && rows[i].id != p.id {
      assert i < k ==> rows[i].id != rows[k].id;
    }
    assert rows'[k] == p;
    forall q: Policy | !(q.workspace == p.workspace && q.id == p.id) ensures q in rows <==> q in rows' {
      if q in rows { var i :| 0 <= i < |rows| && rows[i] == q; assert rows'[i] == q; }
      if q in rows' { var i :| 0 <= i < |rows'| && rows'[i] == q; assert rows[i] == q; }
    }
    SameRowsElsewhere(rows, rows', p.workspace, p.id);
    LookupIs(rows', p.workspace, p.id);
  }

  lemma {:induction false} InsertIs(rows: seq<Policy>, p: Policy)
    requires UniqueIds(rows) && !IdTaken(rows, p.id)
    ensures UniqueIds(rows + [p]) && Lookup(rows + [p], p.workspace, p.id) == Some(p)
    ensures SameElsewhere(rows, rows + [p], p.workspace, p.id)
  {
    forall i | 0 <= i < |rows| ensures rows[i].id != p.id { assert rows[i] in rows; }
    SameRowsElsewhere(rows, rows + [p], p.workspace, p.id);
  }

  lemma {:induction false} WithoutRows(rows: seq<Policy>, workspace: Workspace, id: Id)
    ensures forall p :: p in Without(rows, workspace, id) <==> p in rows && !(p.workspace == workspace && p.id == id)
  {
    if rows != [] {
      WithoutRows(rows[..|rows|-1], workspace, id);
      assert rows == rows[..|rows|-1] + [rows[|rows|-1]];
    }
  }

  lemma {:induction false} WithoutUnique(rows: seq<Policy>, workspace: Workspace, id: Id)
    requires UniqueIds(rows)
    ensures UniqueIds(Without(rows, workspace, id))
  {
    if rows != [] {
      var init, last := rows[..|rows|-1], rows[|rows|-1];
      WithoutUnique(init, workspace, id);
      WithoutRows(init, workspace, id);
      var kept := Without(init, workspace, id);
      forall i | 0 <= i < |kept| ensures kept[i].id != last.id {
        assert kept[i] in kept;
        var k :| 0 <= k < |init| && init[k] == kept[i];
        assert rows[k] == kept[i];
      }
    }
  }

  lemma {:induction false} DeleteIs(rows: seq<Policy>, workspace: Workspace, id: Id)
    requires UniqueIds(rows)
    ensures var rows' := Without(rows, workspace, id);
            UniqueIds(rows') && Lookup(rows', workspace, id) == None && SameElsewhere(rows, rows', workspace, id)
  {
    var rows' := Without(rows, workspace, id);
    WithoutRows(rows, workspace, id);
    WithoutUnique(rows, workspace, id);
    SameRowsElsewhere(rows, rows', workspace, id);
    LookupIs(rows', workspace, id);
  }

  /** A find that names the whole id selects at most the one row. */
  lemma FullFind(rows: seq<Policy>, f: Find)
    requires UniqueIds(rows) && f.showAll && f.resourceType.Some? && f.resource.Some? && f.policyType.Some?
    ensures var id := Id(f.resourceType.value, f.resource.value, f.policyType.value);
            Select(rows, f) == match Lookup(rows, f.workspace, id) case None => [] case Some(p) => [p]
  {
    var id := Id(f.resourceType.value, f.resource.value, f.policyType.value);
    var found := Select(rows, f);
    LookupIs(rows, f.workspace, id);
    SelectUnique(rows, f);
    forall p ensures p in found <==> Lookup(rows, f.workspace, id) == Some(p) {
      assert Matches(p, f) <==> p.workspace == f.workspace && p.id == id;
    }
    assert forall i :: 0 <= i < |found| ==> found[i] in found;
  }

  lemma {:induction false} SelectUnique(rows: seq<Policy>, f: Find)
    requires UniqueIds(rows)
    ensures UniqueIds(Select(rows, f))
  {
    if rows != [] {
      var init, last := rows[..|rows|-1], rows[|rows|-1];
      SelectUnique(init, f);
      var found := Select(init, f);
      forall i | 0 <= i < |found| ensures found[i].id != last.id {
        assert found[i] in found;
        var k :| 0 <= k < |init| && init[k] == found[i];
        assert rows[k] == found[i];
      }
    }
  }

  // ---------------------------------------------------------------- the store

  class Store {
    var rows: seq<Policy>
    var cache: Cache
    const enableCache: bool

    ghost predicate Valid() reads this { UniqueIds(rows) && CacheOk(rows, cache) }

    constructor (rows: seq<Policy>, enableCache: bool)
      requires UniqueIds(rows)
      ensures Valid() && this.rows == rows
    {
      this.rows, this.cache, this.enableCache := rows, map[], enableCache;
    }

    /** GetPolicy. */
    method GetPolicy(find: Find) returns (r: Reply)
      requires Valid()
      modifies this
      ensures Valid() && (rows, r) == Apply(old(rows), Get(find))
    {
      var full := find.resourceType.Some? && find.resource.Some? && find.policyType.Some?;
      var all := find.(showAll := true);
      if full {
        FullFind(rows, all);
        var key := Key(find.workspace, Id(find.resourceType.value, find.resource.value, find.policyType.value));
        if key in cache && enableCache { return Got(cache[key]); }
      }
      var policies := ListPolicies(all);
      if |policies| == 0 {
        if full {
          var id := Id(find.resourceType.value, find.resource.value, find.policyType.value);
          PutKeeps(rows, rows, cache, find.workspace, id);
          cache := cache[Key(find.workspace, id) := None];
        }
        return Got(None);
      }
      if |policies| > 1 { return Failed; }
      var policy := policies[0];
      LookupIs(rows, policy.workspace, policy.id);
      PutKeeps(rows, rows, cache, policy.workspace, policy.id);
      cache := cache[Key(policy.workspace, policy.id) := Some(policy)];
      return Got(Some(policy));
    }

    /** ListPolicies: it caches what it lists. */
    method ListPolicies(find: Find) returns (list: seq<Policy>)
      requires Valid()
      modifies this
      ensures Valid() && rows == old(rows) && list == Select(rows, find)
    {
      list := Select(rows, find);
      for i := 0 to |list|
        invariant rows == old(rows) && Valid()
      {
        var policy := list[i];
        LookupIs(rows, policy.workspace, policy.id);
        PutKeeps(rows, rows, cache, policy.workspace, policy.id);
        cache := cache[Key(policy.workspace, policy.id) := Some(policy)];
      }
    }

    /** CreatePolicy. */
    method CreatePolicy(p: Policy) returns (r: Reply)
      requires Valid()
      modifies this
      ensures Valid() && (rows, r) == Apply(old(rows), Create(p))
    {
      if p.workspace == "" { return Failed; }
      if Lookup(rows, p.workspace, p.id).Some? {
        ReplaceIs(rows, p);
        PutKeeps(rows, Replace(rows, p), cache, p.workspace, p.id);
        rows := Replace(rows, p);
      } else {
        if IdTaken(rows, p.id) { return Failed; }
        InsertIs(rows, p);
        PutKeeps(rows, rows + [p], cache, p.workspace, p.id);
        rows := rows + [p];
      }
      cache := cache[Key(p.workspace, p.id) := Some(p)];
      return Got(Some(p));
    }

    /** UpdatePolicy: nothing is cached for a policy that is not there. */
    method UpdatePolicy(workspace: Workspace, id: Id, patch: Patch) returns (r: Reply)
      requires Valid()
      modifies this
      ensures Valid() && (rows, r) == Apply(old(rows), Update(workspace, id, patch))
    {
      var row := Lookup(rows, workspace, id);
      if row.None? { return Got(None); }
      LookupIs(rows, workspace, id);
      var policy := Patched(row.value, patch);
      ReplaceIs(rows, policy);
      PutKeeps(rows, Replace(rows, policy), cache, workspace, id);
      rows := Replace(rows, policy);
      cache := cache[Key(workspace, id) := Some(policy)];
      return Got(Some(policy));
    }

    /** DeletePolicy. */
    method DeletePolicy(workspace: Workspace, id: Id)
      requires Valid()
      modifies this
      ensures Valid() && (rows, Done) == Apply(old(rows), Delete(workspace, id))
    {
      DeleteIs(rows, workspace, id);
      PutKeeps(rows, Without(rows, workspace, id), cache, workspace, id);
      rows := Without(rows, workspace, id);
      cache := cache - {Key(workspace, id)};
    }

    /** The LRU drops an entry, or a notification invalidates it. */
    method RemoveEntry(key: string)
      requires Valid()
      modifies this
      ensures Valid() && rows == old(rows)
    {
      cache := cache - {key};
    }

    /** Any sequence of calls and evictions is answered as by the table alone. */
    method Run(ops: seq<Op>) returns (replies: seq<Reply>)
      requires Valid()
      modifies this
      ensures Valid() && (rows, replies) == ApplyAll(old(rows), ops)
    {
      replies := [];
      for i := 0 to |ops|
        invariant Valid() && (rows, replies) == ApplyAll(old(rows), ops[..i])
      {
        assert ops[..i+1][..i] == ops[..i];
        var reply := Perform(ops[i]);
        replies := replies + [reply];
      }
      assert ops[..|ops|] == ops;
    }

    method Perform(op: Op) returns (reply: Reply)
      requires Valid()
      modifies this
      ensures Valid() && (rows, reply) == Apply(old(rows), op)
    {
      match op {
        case Get(find) => reply := GetPolicy(find);
        case List(find) => var list := ListPolicies(find); reply := Listed(list);
        case Create(p) => reply := CreatePolicy(p);
        case Update(workspace, id, patch) => reply := UpdatePolicy(workspace, id, patch);
        case Delete(workspace, id) => DeletePolicy(workspace, id); reply := Done;
        case Evict(key) => RemoveEntry(key); reply := Done;
      }
    }
  }

  // ---------------------------------------------------------------- the primary key

  /** What a get after a create finds: the policy created, or, exactly when another workspace has
      a policy with the same resource and type, still nothing. The statement's conflict target
      includes the workspace, the primary key does not. */
  lemma {:induction false} CreateThenGet(rows: seq<Policy>, p: Policy)
    requires UniqueIds(rows) && p.workspace != ""
    ensures var (rows', r) := Apply(rows, Create(p));
            && UniqueIds(rows')
            && (r == Failed <==> exists q :: q in rows && q.id == p.id && q.workspace != p.workspace)
            && Lookup(rows', p.workspace, p.id) == if r == Failed then None else Some(p)
  {
    LookupIs(rows, p.workspace, p.id);
    if Lookup(rows, p.workspace, p.id).Some? {
      ReplaceIs(rows, p);
      var was := Lookup(rows, p.workspace, p.id).value;
      forall q | q in rows && q.id == p.id ensures q == was {
        var i :| 0 <= i < |rows| && rows[i] == q;
        var j :| 0 <= j < |rows| && rows[j] == was;
        assert i == j;
      }
    } else if !IdTaken(rows, p.id) {
      InsertIs(rows, p);
    }
  }
}
