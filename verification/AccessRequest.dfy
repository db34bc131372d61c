/** Access requests: validation and normalisation, the resolution life cycle, and the role list
    a request had before roles were selected from it
    (api/types/access_request.go:295-303, 385-401, 497-548, 611-657). */
module AccessRequest {
  import opened Options
  import opened Names

  datatype State = StateNone | Pending | Approved | Denied | Promoted

  predicate IsResolved(s: State) { s == Approved || s == Denied || s == Promoted }

  datatype ResourceID = ResourceID(cluster: string, kind: string, name: string, subResource: string)

  /** A resource with the constraints put on its use. */
  datatype ResourceAccessID = ResourceAccessID(id: ResourceID, constraints: string)

  const SENTINEL := ResourceID("__SENTINEL__", "node", "__SENTINEL__", "")

  predicate IsSentinel(id: ResourceID) {
    id.cluster == SENTINEL.cluster && id.kind == SENTINEL.kind && id.name == SENTINEL.name
  }

  /** A time as its place in time and the offset of the zone it is written in. */
  datatype Time = Time(instant: int, offset: int)

  /** The fields that validation reads or writes. */
  datatype Request = Request(
    kind: string, version: string, name: string, namespace: string, expires: Option<Time>,
    labels: map<string, string>,
    state: State, resolveReason: string, resolveAnnotations: map<string, seq<string>>,
    user: string, roles: seq<string>, thresholds: map<string, string>,
    resources: seq<ResourceID>, accesses: seq<ResourceAccessID>)

  datatype Problem =
    | NoName | BadNamespace | BadLabelKey | BadOrigin | ResolveReason | ResolveAnnotations | NoUser | NothingRequested

  // ---------- The getters ----------

  function Real(ids: seq<ResourceID>): seq<ResourceID> {
    if ids == [] then []
    else Real(ids[..|ids| - 1]) + if IsSentinel(ids[|ids| - 1]) then [] else [ids[|ids| - 1]]
  }

  function Wrapped(ids: seq<ResourceID>): seq<ResourceAccessID> {
    if ids == [] then []
    else Wrapped(ids[..|ids| - 1]) + if IsSentinel(ids[|ids| - 1]) then [] else [ResourceAccessID(ids[|ids| - 1], "")]
  }

  function AllRequested(r: Request): seq<ResourceAccessID> { Wrapped(r.resources) + r.accesses }

  // ---------- CheckAndSetDefaults ----------

  predicate ValidLabelByte(c: char) {
    '0' <= c <= '9' || 'a' <= c <= 'z' || 'A' <= c <= 'Z' || c in "/._:*-"
  }

  predicate ValidLabelKey(key: string) {
    key != "" && forall i :: 0 <= i < |key| ==> ValidLabelByte(key[i])
  }

  const ORIGIN_LABEL := "teleport.dev/origin"

  const ORIGIN_VALUES := [
    "defaults", "config-file", "dynamic", "cloud", "kubernetes", "okta", "scim", "discovery-kubernetes",
    "entra-id", "aws-identity-center", "integration_awsrolesanywhere"]

  function Origin(labels: map<string, string>): string {
    if ORIGIN_LABEL in labels then labels[ORIGIN_LABEL] else ""
  }

  function InUTC(t: Option<Time>): Option<Time> {
    if t.Some? then Some(t.value.(offset := 0)) else None
  }

  function WithStatics(r: Request): Request {
    r.(kind := "access_request", version := "v3", namespace := if r.namespace == "" then "default" else r.namespace)
  }

  function WithMetadata(r: Request): Request { WithStatics(r).(expires := InUTC(r.expires)) }

  function LabelProblem(labels: map<string, string>): Option<Problem> {
    if exists key :: key in labels && !ValidLabelKey(key) then Some(BadLabelKey)
    else if Origin(labels) != "" && Origin(labels) !in ORIGIN_VALUES then Some(BadOrigin)
    else None
  }

  function MetadataProblem(r: Request): Option<Problem> {
    if r.name == "" then Some(NoName)
    else if r.namespace != "" && r.namespace != "default" then Some(BadNamespace)
    else LabelProblem(r.labels)
  }

  /** The first complaint about a request whose metadata and state are set. */
  function Complaint(r: Request): Option<Problem> {
    if r.state == Pending && r.resolveReason != "" then Some(ResolveReason)
    else if r.state == Pending && r.resolveAnnotations != map[] then Some(ResolveAnnotations)
    else if r.user == "" then Some(NoUser)
    else if r.roles == [] && AllRequested(r) == [] then Some(NothingRequested)
    else None
  }

  function WithState(r: Request): Request {
    if r.state == StateNone then r.(state := Pending) else r
  }

  /** What a request that passes looks like afterwards. */
  function Normalised(r: Request): Request {
    var c := WithState(WithMetadata(r));
    c.(roles := Normal(c.roles),
       resources := if c.resources == [] && c.accesses != [] then [SENTINEL] else c.resources)
  }

  function Check(r: Request): Option<Problem> {
    var p := MetadataProblem(r);
    if p.Some? then p else Complaint(WithState(WithMetadata(r)))
  }

  /** A request that fails keeps the defaults set before the failing test. */
  function Rejected(r: Request, p: Problem): Request {
    match p
    case NoName => r.(kind := "access_request", version := "v3")
    case BadNamespace => WithStatics(r)
    case BadLabelKey => WithMetadata(r)
    case BadOrigin => WithMetadata(r)
    case _ => WithState(WithMetadata(r))
  }

  // ---------- SetState and GetOriginalRoles ----------

  function NextState(from: State, to: State): State {
    if from != to && IsResolved(from) then from else to
  }

  lemma {:induction false} DistinctCardinality(xs: seq<string>)
    requires Distinct(xs)
    ensures |set x | x in xs| == |xs|
  {
    if xs != [] {
      var init, last := xs[..|xs| - 1], xs[|xs| - 1];
      DistinctCardinality(init);
      assert (set x | x in xs) == (set x | x in init) + {last};
      assert last !in (set x | x in init);
    }
  }

  lemma OrderedIsDistinct(xs: seq<string>)
    requires Ordered(xs)
    ensures Distinct(xs)
  {
    forall i, j | 0 <= i < j < |xs| ensures xs[i] != xs[j] {
      LessAsymmetric(xs[i], xs[j]);
    }
  }

  lemma SubsetOfSameSize(a: set<string>, b: set<string>)
    requires a <= b && |a| == |b|
    ensures a == b
  {
    assert b == a + (b - a);
  }

  lemma LengthDecides(xs: seq<string>, keys: set<string>)
    requires Ordered(xs) && (forall x :: x in xs ==> x in keys) && (|keys| == 0 || |keys| == |xs|)
    ensures forall x :: x in xs <==> x in keys
  {
    var elements := set x | x in xs;
    if |keys| == 0 {
      assert keys == {};
    } else {
      OrderedIsDistinct(xs);
      DistinctCardinality(xs);
      assert elements <= keys;
      SubsetOfSameSize(elements, keys);
      assert forall x :: x in keys <==> x in elements;
    }
  }

  // ---------- The object ----------

  class AccessRequestV3 {
    var r: Request

    constructor (r: Request)
      ensures this.r == r
    {
      this.r := r;
    }

    /** A request that is resolved cannot be given another state. */
    method SetState(s: State) returns (ok: bool)
      modifies this
      ensures ok == (r.state == s)
      ensures r == old(r).(state := NextState(old(r.state), s))
    {
      if r.state != s && IsResolved(r.state) {
        return false;
      }
      r := r.(state := s);
      return true;
    }

    /** `Metadata.CheckAndSetDefaults` (api/types/resource.go:527-558), after the static
        fields. */
    method CheckMetadata() returns (problem: Option<Problem>)
      modifies this
      ensures problem == MetadataProblem(old(r))
      ensures r == if problem.None? then WithMetadata(old(r)) else Rejected(old(r), problem.value)
    {
      r := r.(kind := "access_request", version := "v3");
      if r.name == "" { return Some(NoName); }
      if r.namespace == "" { r := r.(namespace := "default"); }
      if r.namespace != "default" { return Some(BadNamespace); }
      r := r.(expires := InUTC(r.expires));
      return LabelProblem(r.labels);
    }

    method CheckAndSetDefaults() returns (problem: Option<Problem>)
      modifies this
      ensures problem == Check(old(r))
      ensures r == if problem.None? then Normalised(old(r)) else Rejected(old(r), problem.value)
    {
      problem := CheckMetadata();
      if problem.Some? { return; }
      if r.state == StateNone { r := r.(state := Pending); }
      if r.state == Pending {
        if r.resolveReason != "" { return Some(ResolveReason); }
        if r.resolveAnnotations != map[] { return Some(ResolveAnnotations); }
      }
      if r.user == "" { return Some(NoUser); }
      var all := GetAllRequestedResourceIDs();
      if r.roles == [] && all == [] { return Some(NothingRequested); }
      var distinct := Deduplicate(r.roles);
      r := r.(roles := Sort(distinct));
      if r.resources == [] && r.accesses != [] {
        r := r.(resources := [SENTINEL]);
      }
      return None;
    }

    method GetRequestedResourceIDs() returns (ids: seq<ResourceID>)
      ensures ids == Real(r.resources)
    {
      ids := [];
      for i := 0 to |r.resources|
        invariant ids == Real(r.resources[..i])
      {
        assert r.resources[..i + 1][..i] == r.resources[..i];
        if !IsSentinel(r.resources[i]) {
          ids := ids + [r.resources[i]];
        }
      }
      assert r.resources[..|r.resources|] == r.resources;
    }

    method GetAllRequestedResourceIDs() returns (ids: seq<ResourceAccessID>)
      ensures ids == AllRequested(r)
    {
      ids := [];
      for i := 0 to |r.resources|
        invariant ids == Wrapped(r.resources[..i])
      {
        assert r.resources[..i + 1][..i] == r.resources[..i];
        if !IsSentinel(r.resources[i]) {
          ids := ids + [ResourceAccessID(r.resources[i], "")];
        }
      }
      assert r.resources[..|r.resources|] == r.resources;
      ids := ids + r.accesses;
    }

    /** The roles the request was made for. If the current roles are a normal list chosen from
        the keys of the threshold map, the answer is the sorted keys, although the shortcut
        compares nothing but lengths. */
    method GetOriginalRoles() returns (roles: seq<string>)
      ensures |r.thresholds| == 0 || |r.thresholds| == |r.roles| ==> roles == r.roles
      ensures |r.thresholds| != 0 && |r.thresholds| != |r.roles| ==>
        Ordered(roles) && forall x :: x in roles <==> x in r.thresholds
      ensures Ordered(r.roles) && (forall x :: x in r.roles ==> x in r.thresholds) ==>
        Ordered(roles) && forall x :: x in roles <==> x in r.thresholds
    {
      if |r.thresholds| == 0 || |r.thresholds| == |r.roles| {
        if Ordered(r.roles) && forall x :: x in r.roles ==> x in r.thresholds {
          LengthDecides(r.roles, r.thresholds.Keys);
        }
        return r.roles;
      }
      roles := [];
      var keys := r.thresholds.Keys;
      while keys != {}
        invariant keys <= r.thresholds.Keys && Distinct(roles)
        invariant forall x :: x in roles <==> x in r.thresholds.Keys - keys
        decreases keys
      {
        var role :| role in keys;
        assert role !in roles;
        assert forall i :: 0 <= i < |roles| ==> roles[i] in roles;
        roles := roles + [role];
        keys := keys - {role};
      }
      SortFacts(roles);
      roles := Sort(roles);
    }
  }

  // ---------- What the getters return ----------

  function Kept(id: ResourceID): seq<ResourceID> { if IsSentinel(id) then [] else [id] }

  lemma {:induction false} RealConcat(a: seq<ResourceID>, b: seq<ResourceID>)
    ensures Real(a + b) == Real(a) + Real(b)
  {
    if b == [] {
      assert a + b == a;
    } else {
      var init, last := b[..|b| - 1], b[|b| - 1];
      RealConcat(a, init);
      assert (a + b)[..|a + b| - 1] == a + init && (a + b)[|a + b| - 1] == last;
      assert Real(a + b) == (Real(a) + Real(init)) + Kept(last);
      assert Real(b) == Real(init) + Kept(last);
    }
  }

  /** A list is filtered one by one and in order. */
  lemma RealOne(id: ResourceID, rest: seq<ResourceID>)
    ensures Real([id] + rest) == Kept(id) + Real(rest)
  {
    var one := [id];
    assert one[..0] == [];
    assert Real(one) == [] + Kept(id) == Kept(id);
    RealConcat(one, rest);
  }

  /** What is dropped: cluster, kind and name are all those of the sentinel. */
  lemma SentinelFields(id: ResourceID)
    ensures Kept(id)
      == if id.cluster == "__SENTINEL__" && id.kind == "node" && id.name == "__SENTINEL__" then [] else [id]
  {}

  lemma {:induction false} WrappedIsReal(ids: seq<ResourceID>)
    ensures |Wrapped(ids)| == |Real(ids)|
    ensures forall i :: 0 <= i < |Real(ids)| ==> Wrapped(ids)[i] == ResourceAccessID(Real(ids)[i], "")
  {
    if ids != [] { WrappedIsReal(ids[..|ids| - 1]); }
  }

  lemma {:induction false} OnlySentinels(ids: seq<ResourceID>)
    ensures Wrapped(ids) == [] <==> forall id :: id in ids ==> IsSentinel(id)
  {
    if ids != [] {
      OnlySentinels(ids[..|ids| - 1]);
      assert ids == ids[..|ids| - 1] + [ids[|ids| - 1]];
    }
  }

  // ---------- Which problem is found ----------

  function Rank(p: Problem): nat {
    match p
    case NoName => 0 case BadNamespace => 1 case BadLabelKey => 2 case BadOrigin => 3
    case ResolveReason => 4 case ResolveAnnotations => 5 case NoUser => 6 case NothingRequested => 7
  }

  predicate Open(s: State) { s == StateNone || s == Pending }

  /** Whether a problem is there, whatever else is wrong with the request. */
  predicate Applies(r: Request, p: Problem) {
    match p
    case NoName => r.name == ""
    case BadNamespace => !(r.namespace == "" || r.namespace == "default")
    case BadLabelKey => exists key :: key in r.labels && !ValidLabelKey(key)
    case BadOrigin =>
      && "teleport.dev/origin" in r.labels && r.labels["teleport.dev/origin"] != ""
      && r.labels["teleport.dev/origin"] !in ORIGIN_VALUES
    case ResolveReason => Open(r.state) && r.resolveReason != ""
    case ResolveAnnotations => Open(r.state) && r.resolveAnnotations != map[]
    case NoUser => r.user == ""
    case NothingRequested => r.roles == [] && r.accesses == [] && forall id :: id in r.resources ==> IsSentinel(id)
  }

  lemma LabelBytes(c: char)
    ensures var n := c as int;
      ValidLabelByte(c) <==>
        48 <= n <= 57 || 65 <= n <= 90 || 97 <= n <= 122 || n in {42, 45, 46, 47, 58, 95}
  {}

  lemma MetadataExact(r: Request)
    ensures MetadataProblem(r).None? <==>
      !Applies(r, NoName) && !Applies(r, BadNamespace) && !Applies(r, BadLabelKey) && !Applies(r, BadOrigin)
    ensures MetadataProblem(r).Some? ==>
      var p := MetadataProblem(r).value;
      Applies(r, p) && Rank(p) < 4 && forall q :: Rank(q) < Rank(p) ==> !Applies(r, q)
  {
    forall q | MetadataProblem(r).Some? && Rank(q) < Rank(MetadataProblem(r).value) ensures !Applies(r, q) {
      assert q.NoName? || q.BadNamespace? || q.BadLabelKey?;
    }
  }

  lemma ComplaintExact(r: Request)
    requires r.state != StateNone
    ensures Complaint(r).None? ==> forall q :: Rank(q) >= 4 ==> !Applies(r, q)
    ensures Complaint(r).Some? ==>
      var p := Complaint(r).value;
      Applies(r, p) && Rank(p) >= 4 && forall q :: 4 <= Rank(q) < Rank(p) ==> !Applies(r, q)
  {
    OnlySentinels(r.resources);
  }

  lemma DefaultsDoNotMatter(r: Request, q: Problem)
    requires Rank(q) >= 4
    ensures Applies(WithState(WithMetadata(r)), q) <==> Applies(r, q)
  {}

  /** A request passes exactly if no problem is there, and otherwise the first one that is there
      is reported. */
  lemma CheckExact(r: Request)
    ensures Check(r).None? <==> forall q :: !Applies(r, q)
    ensures Check(r).Some? ==>
      Applies(r, Check(r).value) && forall q :: Rank(q) < Rank(Check(r).value) ==> !Applies(r, q)
  {
    MetadataExact(r);
    if MetadataProblem(r).None? {
      ComplaintExact(WithState(WithMetadata(r)));
      forall q | Rank(q) >= 4 ensures Applies(WithState(WithMetadata(r)), q) <==> Applies(r, q) {
        DefaultsDoNotMatter(r, q);
      }
      assert forall q :: Rank(q) < 4 ==> q.NoName? || q.BadNamespace? || q.BadLabelKey? || q.BadOrigin?;
    }
  }

  /** What a request that passes looks like afterwards: pending if it had no state and otherwise
      in the state it had, so never resolved by being checked; its roles ordered, without
      duplicates and the same; its resources the same, or the sentinel alone if there were only
      constrained ones; its expiry the same instant in UTC; and all else as it was. */
  lemma NormalisedFields(r: Request)
    ensures var n := Normalised(r);
      && n.state == (if r.state == StateNone then Pending else r.state)
      && (Open(r.state) <==> n.state == Pending)
      && n.kind == "access_request" && n.version == "v3"
      && n.namespace == (if r.namespace == "" then "default" else r.namespace)
      && n.expires == (if r.expires.Some? then Some(Time(r.expires.value.instant, 0)) else None)
      && Ordered(n.roles) && SameElements(n.roles, r.roles)
      && (r.resources != [] || r.accesses == [] ==> n.resources == r.resources)
      && (r.resources == [] && r.accesses != [] ==>
          n.resources == [ResourceID("__SENTINEL__", "node", "__SENTINEL__", "")])
      && (n.name, n.labels, n.user, n.accesses, n.thresholds)
         == (r.name, r.labels, r.user, r.accesses, r.thresholds)
      && (n.resolveReason, n.resolveAnnotations) == (r.resolveReason, r.resolveAnnotations)
  {
    NormalFacts(r.roles);
  }

  /** A request that fails is not normalised: it keeps roles and resources as they were, and if
      it was open it still is. */
  lemma RejectedFields(r: Request, p: Problem)
    ensures var n := Rejected(r, p);
      && (Open(n.state) <==> Open(r.state)) && (!Open(r.state) ==> n.state == r.state)
      && (Rank(p) < 4 ==> n.state == r.state)
      && (Rank(p) < 2 ==> n.expires == r.expires)
      && (n.name, n.labels, n.user, n.roles, n.resources, n.accesses, n.thresholds)
         == (r.name, r.labels, r.user, r.roles, r.resources, r.accesses, r.thresholds)
      && (n.resolveReason, n.resolveAnnotations) == (r.resolveReason, r.resolveAnnotations)
  {}

  // ---------- Main results ----------

  /** The sentinel that normalisation adds is invisible to both getters, so they see the same
      resources before and after. */
  lemma SentinelInvisible(r: Request)
    ensures Real(Normalised(r).resources) == Real(r.resources)
    ensures AllRequested(Normalised(r)) == AllRequested(r)
  {
    assert [SENTINEL][..0] == [];
  }

  lemma NormalisedFixed(r: Request)
    requires MetadataProblem(r).None?
    ensures WithState(WithMetadata(Normalised(r))) == Normalised(r)
    ensures MetadataProblem(Normalised(r)).None?
  {}

  lemma SameComplaint(c: Request, n: Request)
    requires c.state == n.state && c.resolveReason == n.resolveReason && c.user == n.user
    requires c.resolveAnnotations == n.resolveAnnotations
    requires (c.roles == [] <==> n.roles == []) && AllRequested(c) == AllRequested(n)
    ensures Complaint(c) == Complaint(n)
  {}

  lemma NormalTwice(xs: seq<string>)
    ensures Normal(Normal(xs)) == Normal(xs) && (Normal(xs) == [] <==> xs == [])
  {
    NormalFacts(xs);
    NormalFacts(Normal(xs));
    assert xs != [] ==> xs[0] in xs;
  }

  /** A request that passed passes again, and comes out unchanged. */
  lemma CheckIdempotent(r: Request)
    requires Check(r).None?
    ensures Check(Normalised(r)).None? && Normalised(Normalised(r)) == Normalised(r)
  {
    var n := Normalised(r);
    NormalisedFixed(r);
    NormalTwice(r.roles);
    SentinelInvisible(r);
    SameComplaint(WithState(WithMetadata(r)), n);
    assert Check(n).None?;
    assert Normalised(n).roles == n.roles && Normalised(n).resources == n.resources;
  }

  /** The state after a series of `SetState` calls, failed ones included. */
  function RunStates(from: State, calls: seq<State>): State
    decreases |calls|
  {
    if calls == [] then from else RunStates(NextState(from, calls[0]), calls[1..])
  }

  /** The first resolved state of a history, or the last one if none is. */
  function FirstResolved(from: State, calls: seq<State>): State
    decreases |calls|
  {
    if from in {Approved, Denied, Promoted} || calls == [] then from else FirstResolved(calls[0], calls[1..])
  }

  /** Over any series of calls the first resolved state wins: it is never left again. */
  lemma {:induction false} FirstResolvedWins(from: State, calls: seq<State>)
    ensures RunStates(from, calls) == FirstResolved(from, calls)
    decreases |calls|
  {
    if calls != [] {
      FirstResolvedWins(NextState(from, calls[0]), calls[1..]);
    }
  }
}
