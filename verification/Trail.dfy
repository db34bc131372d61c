/** Mapping trees of wrapped errors to gRPC status codes and back
    (api/trail/trail.go:61-170, 231-264). */
module Trail {
  import opened Options

  /** The trace error types that have a code, in the order in which `ToGRPC` asks for them. */
  datatype Class =
    | AccessDenied | AlreadyExists | BadParameter | CompareFailed | ConnectionProblem
    | LimitExceeded | NotFound | NotImplemented | OAuth2

  datatype Code =
    | OK | Unknown | CodePermissionDenied | CodeAlreadyExists | CodeInvalidArgument | CodeFailedPrecondition
    | CodeUnavailable | CodeResourceExhausted | CodeNotFound | CodeUnimplemented | OtherCode(number: nat)

  /** How an error unwraps: not at all, to one error or to a list; unwrapped errors may be
      nil. */
  datatype Link = Leaf | Single(child: Error) | Many(children: seq<Error>)

  /** `Node` says what the error itself is: io.EOF, a gRPC status, an os "not exist" error, a
      mapped trace type, or none of these. */
  datatype Error =
    | Nil
    | Node(eof: bool, status: Option<Code>, notExist: bool, kind: Option<Class>, link: Link)

  // ---------- errors.As ----------

  /** The tree in the order in which `errors.Is` and `errors.As` search it. */
  function Nodes(e: Error): seq<Error>
    decreases e, 0
  {
    if e.Nil? then []
    else [e] + match e.link
      case Leaf => []
      case Single(c) => Nodes(c)
      case Many(cs) => NodesOfAll(cs)
  }

  function NodesOfAll(es: seq<Error>): seq<Error>
    decreases es, 1
  {
    if es == [] then [] else Nodes(es[0]) + NodesOfAll(es[1..])
  }

  function FirstWhere(es: seq<Error>, p: Error -> bool): Option<Error> {
    if es == [] then None else if p(es[0]) then Some(es[0]) else FirstWhere(es[1..], p)
  }

  lemma {:induction false} FirstWhereFacts(es: seq<Error>, p: Error -> bool)
    ensures match FirstWhere(es, p)
      case Some(n) => n in es && p(n)
      case None => forall n :: n in es ==> !p(n)
  {
    if es != [] { FirstWhereFacts(es[1..], p); }
  }

  /** `errors.As` into a type: the first node of the tree that has it. */
  function As(e: Error, p: Error -> bool): Option<Error> { FirstWhere(Nodes(e), p) }

  predicate Has(e: Error, p: Error -> bool) { As(e, p).Some? }

  predicate IsEof(e: Error) { e.Node? && e.eof }

  predicate HasStatus(e: Error) { e.Node? && e.status.Some? }

  predicate IsNotExist(e: Error) { e.Node? && e.notExist }

  predicate Unwraps(e: Error) { e.Node? && e.link.Single? }

  predicate UnwrapsMany(e: Error) { e.Node? && e.link.Many? }

  function OfClass(k: Class): Error -> bool { (e: Error) => e.Node? && e.kind == Some(k) }

  // ---------- Subtrees ----------

  lemma {:induction false} NodesAreSubtrees(e: Error, n: Error)
    requires n in Nodes(e)
    ensures n.Node? && |Nodes(n)| <= |Nodes(e)|
    ensures forall m :: m in Nodes(n) ==> m in Nodes(e)
    decreases e, 0
  {
    if n != e {
      match e.link
      case Single(c) => NodesAreSubtrees(c, n);
      case Many(cs) => NodesOfAllAreSubtrees(cs, n);
      case Leaf =>
    }
  }

  lemma {:induction false} NodesOfAllAreSubtrees(es: seq<Error>, n: Error)
    requires n in NodesOfAll(es)
    ensures n.Node? && |Nodes(n)| <= |NodesOfAll(es)|
    ensures forall m :: m in Nodes(n) ==> m in NodesOfAll(es)
    decreases es, 1
  {
    if n in Nodes(es[0]) {
      NodesAreSubtrees(es[0], n);
    } else {
      NodesOfAllAreSubtrees(es[1..], n);
    }
  }

  lemma FoundIsSubtree(e: Error, p: Error -> bool)
    ensures match As(e, p)
      case Some(n) =>
        && n.Node? && p(n) && n in Nodes(e) && |Nodes(n)| <= |Nodes(e)|
        && forall m :: m in Nodes(n) ==> m in Nodes(e)
      case None => forall m :: m in Nodes(e) ==> !p(m)
  {
    FirstWhereFacts(Nodes(e), p);
    if As(e, p).Some? {
      NodesAreSubtrees(e, As(e, p).value);
    }
  }

  // ---------- traverseErr ----------

  /** Calls `fn` along the tree until it matches. Both unwrapping interfaces are looked up with
      `errors.As`, which may find them far below `e`. */
  function Traverse<R>(e: Error, fn: Error -> Option<R>): Option<R>
    decreases |Nodes(e)|, 0
  {
    if e.Nil? then None
    else if fn(e).Some? then fn(e)
    else
      FoundIsSubtree(e, Unwraps);
      FoundIsSubtree(e, UnwrapsMany);
      if Has(e, Unwraps) then Traverse(As(e, Unwraps).value.link.child, fn)
      else if Has(e, UnwrapsMany) then TraverseAll(As(e, UnwrapsMany).value.link.children, fn)
      else None
  }

  function TraverseAll<R>(es: seq<Error>, fn: Error -> Option<R>): Option<R>
    decreases |NodesOfAll(es)|, |es| + 1
  {
    if es == [] then None
    else
      var r := Traverse(es[0], fn);
      if r.Some? then r else TraverseAll(es[1..], fn)
  }

  /** Which errors a traversal looks at, and in which order: it goes from the first error of
      the tree that unwraps to one error straight to what that wraps, passing over everything
      else, until nothing left unwraps to one error; then it takes the whole rest. */
  function Visits(e: Error): seq<Error>
    decreases |Nodes(e)|
  {
    if e.Nil? then []
    else
      FoundIsSubtree(e, Unwraps);
      if Has(e, Unwraps) then [e] + Visits(As(e, Unwraps).value.link.child) else Nodes(e)
  }

  function FirstMatch<R>(es: seq<Error>, fn: Error -> Option<R>): Option<R> {
    if es == [] then None else if fn(es[0]).Some? then fn(es[0]) else FirstMatch(es[1..], fn)
  }

  lemma {:induction false} FirstMatchConcat<R>(a: seq<Error>, b: seq<Error>, fn: Error -> Option<R>)
    ensures FirstMatch(a + b, fn) == if FirstMatch(a, fn).Some? then FirstMatch(a, fn) else FirstMatch(b, fn)
  {
    if a == [] {
      assert a + b == b;
    } else {
      assert (a + b)[1..] == a[1..] + b;
      FirstMatchConcat(a[1..], b, fn);
    }
  }

  lemma NoSingleBelow(e: Error, c: Error)
    requires !Has(e, Unwraps) && forall m :: m in Nodes(c) ==> m in Nodes(e)
    ensures !Has(c, Unwraps)
  {
    FirstWhereFacts(Nodes(e), Unwraps);
    FirstWhereFacts(Nodes(c), Unwraps);
  }

  /** A tree of lists only is traversed completely, in the order of the search. */
  lemma {:induction false} TraverseFlat<R>(e: Error, fn: Error -> Option<R>)
    requires !Has(e, Unwraps)
    ensures Traverse(e, fn) == FirstMatch(Nodes(e), fn)
    decreases e, 0
  {
    if e.Node? {
      FirstWhereFacts(Nodes(e), Unwraps);
      assert e in Nodes(e) && !Unwraps(e);
      assert FirstMatch(Nodes(e), fn) == if fn(e).Some? then fn(e) else FirstMatch(Nodes(e)[1..], fn);
      if e.link.Many? {
        assert As(e, UnwrapsMany) == Some(e);
        assert Nodes(e)[1..] == NodesOfAll(e.link.children);
        TraverseFlatAll(e, e.link.children, fn);
      } else {
        FirstWhereFacts(Nodes(e), UnwrapsMany);
        assert Nodes(e) == [e];
      }
    }
  }

  lemma {:induction false} TraverseFlatAll<R>(e: Error, es: seq<Error>, fn: Error -> Option<R>)
    requires !Has(e, Unwraps) && forall m :: m in NodesOfAll(es) ==> m in Nodes(e)
    ensures TraverseAll(es, fn) == FirstMatch(NodesOfAll(es), fn)
    decreases es, 1
  {
    if es != [] {
      NoSingleBelow(e, es[0]);
      TraverseFlat(es[0], fn);
      TraverseFlatAll(e, es[1..], fn);
      FirstMatchConcat(Nodes(es[0]), NodesOfAll(es[1..]), fn);
    }
  }

  /** `traverseErr` returns the first match among the errors it visits, for every tree and
      every function. */
  lemma {:induction false} TraverseIsFirstVisit<R>(e: Error, fn: Error -> Option<R>)
    ensures Traverse(e, fn) == FirstMatch(Visits(e), fn)
    decreases |Nodes(e)|
  {
    if e.Node? {
      if Has(e, Unwraps) {
        FoundIsSubtree(e, Unwraps);
        var c := As(e, Unwraps).value.link.child;
        TraverseIsFirstVisit(c, fn);
        assert ([e] + Visits(c))[1..] == Visits(c);
      } else {
        TraverseFlat(e, fn);
      }
    }
  }

  lemma {:induction false} VisitsInTree(e: Error)
    ensures forall n :: n in Visits(e) ==> n in Nodes(e)
    ensures e.Node? ==> e in Visits(e)
    decreases |Nodes(e)|
  {
    if e.Node? && Has(e, Unwraps) {
      FoundIsSubtree(e, Unwraps);
      var n := As(e, Unwraps).value;
      VisitsInTree(n.link.child);
      assert Nodes(n) == [n] + Nodes(n.link.child);
    }
  }

  // ---------- When the whole tree is traversed ----------

  /** A chain of errors that each wrap one error, ending in a tree in which no error does. A
      caller sees this in the tree itself: only an aggregate with such an error somewhere below
      it is excluded. */
  predicate Chain(e: Error)
    decreases e
  {
    e.Nil? || (if e.link.Single? then Chain(e.link.child) else !Has(e, Unwraps))
  }

  lemma {:induction false} ChainIsVisited(e: Error)
    requires Chain(e)
    ensures Visits(e) == Nodes(e)
    decreases e
  {
    if Unwraps(e) {
      assert As(e, Unwraps) == Some(e);
      ChainIsVisited(e.link.child);
    }
  }

  /** Off a chain some error is passed over: the first one below the aggregate that wraps one
      error. What it wraps is visited, and is smaller than it. */
  lemma {:induction false} PassedOver(e: Error) returns (n: Error)
    requires !Chain(e)
    ensures n in Nodes(e) && n !in Visits(e)
    decreases e
  {
    FoundIsSubtree(e, Unwraps);
    if Unwraps(e) {
      assert As(e, Unwraps) == Some(e);
      n := PassedOver(e.link.child);
      NodesAreSubtrees(e.link.child, n);
    } else {
      n := As(e, Unwraps).value;
      var c := n.link.child;
      VisitsInTree(c);
      if n in Visits(c) {
        NodesAreSubtrees(c, n);
        assert false;
      }
    }
  }

  /** The traversal looks at the whole tree exactly on a chain. */
  lemma VisitsAllIff(e: Error)
    ensures Visits(e) == Nodes(e) <==> Chain(e)
    ensures (forall n :: n in Nodes(e) ==> n in Visits(e)) <==> Chain(e)
  {
    if Chain(e) {
      ChainIsVisited(e);
    } else {
      var n := PassedOver(e);
    }
  }

  lemma {:induction false} MatchExists<R>(es: seq<Error>, fn: Error -> Option<R>)
    ensures FirstMatch(es, fn).Some? <==> exists n :: n in es && fn(n).Some?
  {
    if es != [] {
      assert es == [es[0]] + es[1..];
      MatchExists(es[1..], fn);
    }
  }

  /** So a chain is exactly a tree on which every function is tried on every error in the order
      of the search. */
  lemma TraversesAllIff(e: Error)
    ensures (forall fn: Error -> Option<Error> :: Traverse(e, fn) == FirstMatch(Nodes(e), fn)) <==> Chain(e)
  {
    if Chain(e) {
      ChainIsVisited(e);
      forall fn: Error -> Option<Error> ensures Traverse(e, fn) == FirstMatch(Nodes(e), fn) {
        TraverseIsFirstVisit(e, fn);
      }
    } else {
      var n := PassedOver(e);
      var isN := m => if m == n then Some(m) else None;
      TraverseIsFirstVisit(e, isN);
      MatchExists(Visits(e), isN);
      MatchExists(Nodes(e), isN);
      assert isN(n).Some?;
    }
  }

  // ---------- ToGRPC and FromGRPC ----------

  function CodeOf(k: Class): Code {
    match k
    case AccessDenied => CodePermissionDenied
    case AlreadyExists => CodeAlreadyExists
    case BadParameter => CodeInvalidArgument
    case CompareFailed => CodeFailedPrecondition
    case ConnectionProblem => CodeUnavailable
    case LimitExceeded => CodeResourceExhausted
    case NotFound => CodeNotFound
    case NotImplemented => CodeUnimplemented
    case OAuth2 => CodeInvalidArgument
  }

  predicate HasClass(e: Error, k: Class) { Has(e, OfClass(k)) }

  /** The chain of `errors.As` tests. */
  function ClassCode(e: Error): Option<Code> {
    if HasClass(e, AccessDenied) then Some(CodePermissionDenied)
    else if HasClass(e, AlreadyExists) then Some(CodeAlreadyExists)
    else if HasClass(e, BadParameter) then Some(CodeInvalidArgument)
    else if HasClass(e, CompareFailed) then Some(CodeFailedPrecondition)
    else if HasClass(e, ConnectionProblem) then Some(CodeUnavailable)
    else if HasClass(e, LimitExceeded) then Some(CodeResourceExhausted)
    else if HasClass(e, NotFound) then Some(CodeNotFound)
    else if HasClass(e, NotImplemented) then Some(CodeUnimplemented)
    else if HasClass(e, OAuth2) then Some(CodeInvalidArgument)
    else None
  }

  /** The code `status.FromError` finds. */
  function StatusCode(e: Error): Code
    requires Has(e, HasStatus)
  {
    FirstWhereFacts(Nodes(e), HasStatus);
    As(e, HasStatus).value.status.value
  }

  datatype Found = KeepOriginal | UseCode(code: Code)

  /** The closure that `ToGRPC` passes to the traversal. */
  function Visit(e: Error): Option<Found> {
    if Has(e, IsEof) then Some(KeepOriginal)
    else if Has(e, HasStatus) then Some(UseCode(StatusCode(e)))
    else if IsNotExist(e) then Some(UseCode(CodeNotFound))
    else if ClassCode(e).Some? then Some(UseCode(ClassCode(e).value))
    else None
  }

  datatype Grpc = NoError | Original(error: Error) | Status(code: Code)

  function ToGRPC(e: Error): Grpc {
    if e.Nil? then NoError
    else if Has(e, HasStatus) then Original(e)
    else match Traverse<Found>(e, Visit)
      case None => Status(Unknown)
      case Some(KeepOriginal) => Original(e)
      case Some(UseCode(c)) => Status(c)
  }

  /** What the receiver gets: nothing, an error of a trace type, or the error unchanged. */
  datatype Received = Nothing | Typed(kind: Class) | Unchanged

  function FromCode(c: Code): Received {
    match c
    case OK => Nothing
    case CodeNotFound => Typed(NotFound)
    case CodeAlreadyExists => Typed(AlreadyExists)
    case CodePermissionDenied => Typed(AccessDenied)
    case CodeFailedPrecondition => Typed(CompareFailed)
    case CodeInvalidArgument => Typed(BadParameter)
    case CodeResourceExhausted => Typed(LimitExceeded)
    case CodeUnavailable => Typed(ConnectionProblem)
    case CodeUnimplemented => Typed(NotImplemented)
    case _ => Unchanged
  }

  function FromGRPC(g: Grpc): Received {
    match g
    case NoError => Nothing
    case Status(c) => FromCode(c)
    case Original(e) => if Has(e, HasStatus) then FromCode(StatusCode(e)) else Unchanged
  }

  /** OAuth2 shares its code with BadParameter and comes back as that. */
  function Restored(k: Class): Class { if k == OAuth2 then BadParameter else k }

  lemma CodeRoundTrip(k: Class)
    ensures FromCode(CodeOf(k)) == Typed(Restored(k))
  {}

  /** A code becomes an error of a class exactly if it is the code of that class, nothing exactly
      if it is OK, and every other code leaves the error alone. */
  lemma CodesExact(c: Code, k: Class)
    ensures FromCode(c) == Typed(k) <==> c == CodeOf(k) && k != OAuth2
    ensures FromCode(c) == Nothing <==> c == OK
    ensures (forall j: Class :: c != CodeOf(j)) && c != OK ==> FromCode(c) == Unchanged
  {
    if (forall j: Class :: c != CodeOf(j)) && c != OK {
      assert c != CodeOf(AccessDenied) && c != CodeOf(AlreadyExists) && c != CodeOf(BadParameter);
      assert c != CodeOf(CompareFailed) && c != CodeOf(ConnectionProblem) && c != CodeOf(LimitExceeded);
      assert c != CodeOf(NotFound) && c != CodeOf(NotImplemented);
    }
  }

  lemma {:induction false} FirstWhereIsFirst(es: seq<Error>, p: Error -> bool) returns (k: nat)
    requires FirstWhere(es, p).Some?
    ensures k < |es| && FirstWhere(es, p) == Some(es[k]) && p(es[k]) && forall j :: 0 <= j < k ==> !p(es[j])
  {
    if p(es[0]) {
      k := 0;
    } else {
      var i := FirstWhereIsFirst(es[1..], p);
      k := i + 1;
      assert forall j :: 0 < j < k ==> es[j] == es[1..][j - 1];
    }
  }

  /** The first error of the tree that has a status is the one at `k`. */
  predicate FirstStatus(e: Error, k: int) {
    && 0 <= k < |Nodes(e)| && Nodes(e)[k].Node? && Nodes(e)[k].status.Some?
    && forall j :: 0 <= j < k ==> !HasStatus(Nodes(e)[j])
  }

  /** No error stays none, and an error is never turned into none or into a class on its way if
      it has no code of its own: one that is only known as Unknown, or an end of file, arrives
      unchanged; one with a status arrives as the first status in the tree says. */
  lemma Arrives(e: Error)
    ensures ToGRPC(Nil) == NoError && FromGRPC(NoError) == Nothing
    ensures ToGRPC(e) == Status(Unknown) ==> FromGRPC(ToGRPC(e)) == Unchanged
    ensures Has(e, IsEof) && !Has(e, HasStatus) ==> FromGRPC(ToGRPC(e)) == Unchanged
    ensures Has(e, HasStatus) ==>
      exists k :: FirstStatus(e, k) && FromGRPC(ToGRPC(e)) == FromCode(Nodes(e)[k].status.value)
  {
    if Has(e, HasStatus) {
      var k := FirstWhereIsFirst(Nodes(e), HasStatus);
      assert FirstStatus(e, k);
    }
  }

  function Priority(k: Class): nat {
    match k
    case AccessDenied => 0 case AlreadyExists => 1 case BadParameter => 2 case CompareFailed => 3
    case ConnectionProblem => 4 case LimitExceeded => 5 case NotFound => 6 case NotImplemented => 7 case OAuth2 => 8
  }

  /** `k` occurs in the tree and no class that is asked for earlier does. */
  predicate Highest(e: Error, k: Class) {
    && (exists n :: n in Nodes(e) && OfClass(k)(n))
    && (forall n :: n in Nodes(e) && n.Node? && n.kind.Some? ==> Priority(k) <= Priority(n.kind.value))
  }

  predicate Plain(e: Error) {
    e.Node? && (forall n :: n in Nodes(e) ==> n.Node? && !n.eof && n.status.None?)
  }

  lemma HasClassIff(e: Error, k: Class)
    ensures HasClass(e, k) <==> exists n :: n in Nodes(e) && OfClass(k)(n)
  {
    FirstWhereFacts(Nodes(e), OfClass(k));
    FoundIsSubtree(e, OfClass(k));
  }

  lemma NothingAbove(e: Error, k: Class)
    requires Plain(e) && Highest(e, k)
    ensures HasClass(e, k) && forall j: Class :: HasClass(e, j) ==> Priority(k) <= Priority(j)
  {
    HasClassIff(e, k);
    forall j: Class ensures HasClass(e, j) ==> Priority(k) <= Priority(j) {
      HasClassIff(e, j);
    }
  }

  lemma FirstInOrder(e: Error, k: Class)
    requires HasClass(e, k) && forall j: Class :: HasClass(e, j) ==> Priority(k) <= Priority(j)
    ensures ClassCode(e) == Some(CodeOf(k))
  {}

  lemma NoClassNoCode(e: Error)
    requires forall n :: n in Nodes(e) ==> n.Node? && n.kind.None?
    ensures ClassCode(e) == None
  {
    forall j: Class ensures !HasClass(e, j) {
      HasClassIff(e, j);
    }
  }

  lemma PlainVisit(e: Error, n: Error)
    requires Plain(e) && n in Nodes(e)
    ensures Visit(n) == if n.notExist then Some(UseCode(CodeNotFound))
                        else if ClassCode(n).Some? then Some(UseCode(ClassCode(n).value)) else None
  {
    NodesAreSubtrees(e, n);
    FirstWhereFacts(Nodes(n), IsEof);
    FirstWhereFacts(Nodes(n), HasStatus);
  }

  /** In a tree without EOF and status whose root is not an os "not exist" error, the code is
      that of the class with the highest priority anywhere in the tree, however deep, and the
      receiver gets that class back. */
  lemma HighestClassWins(e: Error, k: Class)
    requires Plain(e) && !e.notExist && Highest(e, k)
    ensures ToGRPC(e) == Status(CodeOf(k))
    ensures FromGRPC(ToGRPC(e)) == Typed(Restored(k))
  {
    FirstWhereFacts(Nodes(e), HasStatus);
    NothingAbove(e, k);
    FirstInOrder(e, k);
    PlainVisit(e, e);
    FirstHit<Found>(e, Visit);
    CodeRoundTrip(k);
  }

  /** If the root itself is an os "not exist" error, no class below it or in it matters. */
  lemma NotExistFirst(e: Error)
    requires Plain(e) && e.notExist
    ensures ToGRPC(e) == Status(CodeNotFound) && FromGRPC(ToGRPC(e)) == Typed(NotFound)
  {
    FirstWhereFacts(Nodes(e), HasStatus);
    PlainVisit(e, e);
    FirstHit<Found>(e, Visit);
  }

  lemma FirstHit<R>(e: Error, fn: Error -> Option<R>)
    requires e.Node? && fn(e).Some?
    ensures Traverse(e, fn) == fn(e)
  {}

  lemma {:induction false} FirstNotExist(es: seq<Error>)
    requires forall n :: n in es ==> n.Node? && Visit(n) == if n.notExist then Some(UseCode(CodeNotFound)) else None
    ensures FirstMatch(es, Visit) == if exists n :: n in es && IsNotExist(n) then Some(UseCode(CodeNotFound)) else None
  {
    if es != [] {
      assert es == [es[0]] + es[1..];
      FirstNotExist(es[1..]);
    }
  }

  /** Without any class in the tree, descending can only add the os "not exist" case: the code
      is NotFound exactly when one of the visited errors is of that kind. */
  lemma DescentAddsOnlyNotExist(e: Error)
    requires Plain(e) && forall n :: n in Nodes(e) ==> n.kind.None?
    ensures ToGRPC(e) == Status(if exists n :: n in Visits(e) && IsNotExist(n) then CodeNotFound else Unknown)
  {
    FirstWhereFacts(Nodes(e), HasStatus);
    VisitsInTree(e);
    forall n | n in Visits(e)
      ensures n.Node? && Visit(n) == if n.notExist then Some(UseCode(CodeNotFound)) else None
    {
      PlainVisit(e, n);
      NodesAreSubtrees(e, n);
      NoClassNoCode(n);
    }
    TraverseIsFirstVisit(e, Visit);
    FirstNotExist(Visits(e));
  }

  /** On a chain, then, a "not exist" error anywhere in the tree makes the code NotFound. */
  lemma ChainFindsNotExist(e: Error)
    requires Plain(e) && Chain(e) && forall n :: n in Nodes(e) ==> n.kind.None?
    ensures ToGRPC(e) == Status(if exists n :: n in Nodes(e) && IsNotExist(n) then CodeNotFound else Unknown)
  {
    ChainIsVisited(e);
    DescentAddsOnlyNotExist(e);
  }

  const MISSING := Node(false, None, true, None, Leaf)
  const INNER := Node(false, None, false, None, Leaf)
  const WRAPPED := Node(false, None, false, None, Single(INNER))
  const AGGREGATE := Node(false, None, false, None, Many([MISSING, WRAPPED]))

  lemma NodesOfPair(a: Error, b: Error)
    ensures NodesOfAll([a, b]) == Nodes(a) + Nodes(b)
  {
    assert [a, b][1..] == [b] && NodesOfAll([b]) == Nodes(b);
  }

  lemma AggregateVisits()
    ensures Nodes(AGGREGATE) == [AGGREGATE, MISSING, WRAPPED, INNER]
    ensures Has(AGGREGATE, Unwraps) && Visits(AGGREGATE) == [AGGREGATE, INNER]
  {
    NodesOfPair(MISSING, WRAPPED);
    assert Nodes(AGGREGATE) == [AGGREGATE, MISSING, WRAPPED, INNER];
    FirstWhereFacts(Nodes(AGGREGATE), Unwraps);
    assert As(AGGREGATE, Unwraps) == Some(WRAPPED) by {
      assert WRAPPED in Nodes(AGGREGATE) && Unwraps(WRAPPED);
    }
    assert Visits(INNER) == Nodes(INNER) == [INNER] by { ChainIsVisited(INNER); }
  }

  /** Off a chain it need not: of two aggregated errors, "not exist" and a wrapped one, only the
      wrapped one is looked into. */
  lemma SiblingPassedOver()
    ensures MISSING in Nodes(AGGREGATE) && !Chain(AGGREGATE)
    ensures ToGRPC(AGGREGATE) == Status(Unknown) && ToGRPC(MISSING) == Status(CodeNotFound)
  {
    AggregateVisits();
    DescentAddsOnlyNotExist(AGGREGATE);
    ChainFindsNotExist(MISSING);
  }

  /** A status anywhere in the tree leaves the error alone, and the receiver reads its code;
      an EOF anywhere leaves it alone too. So the closure's own status test never decides. */
  lemma StatusAndEofKept(e: Error)
    requires e.Node?
    ensures Has(e, HasStatus) || Has(e, IsEof) ==> ToGRPC(e) == Original(e)
    ensures Has(e, HasStatus) ==> FromGRPC(ToGRPC(e)) == FromCode(StatusCode(e))
    ensures !Has(e, HasStatus) ==> forall n :: n in Visits(e) ==> !Has(n, HasStatus)
  {
    VisitsInTree(e);
    FirstWhereFacts(Nodes(e), HasStatus);
    forall n | n in Visits(e) && !Has(e, HasStatus) ensures !Has(n, HasStatus) {
      NodesAreSubtrees(e, n);
      FirstWhereFacts(Nodes(n), HasStatus);
    }
  }
}
