/** Fetching a whole list page by page, halving the page size whenever the server answers that
    a page exceeds the message size (api/client/client.go:4949-5244). */
module Paging {
  import opened Counting
  import opened Options

  const DEFAULT_CHUNK_SIZE := 1000

  datatype Reply<R> = Page(items: seq<R>, next: string) | LimitExceeded | Refused(error: string)

  /** What the server answers to a start key and a limit. The third argument is the number of
      requests made so far, so that a server may change its mind between them. */
  type Server<!R> = (string, int, nat) -> Reply<R>

  datatype Request = Request(key: string, limit: int, tick: nat)

  function Ask<R>(serve: Server<R>, q: Request): Reply<R> { serve(q.key, q.limit, q.tick) }

  datatype Outcome<T> = Ok(value: T) | TooLarge | ServerError(error: string) | BadResource

  // ---------- Which requests are made ----------

  /** Division truncates toward zero. */
  function Half(x: int): int { if x >= 0 then x / 2 else -((-x) / 2) }

  function Abs(x: int): nat { if x < 0 then -x else x }

  /** The request after `q`: a rejected page is asked for again at half the limit while there is
      one, a page is followed by the next one at the same limit, and a failure, an empty page or
      an empty next key by nothing. */
  function Next<R>(serve: Server<R>, q: Request): Option<Request> {
    match Ask(serve, q)
    case LimitExceeded => if Half(q.limit) == 0 then None else Some(Request(q.key, Half(q.limit), q.tick + 1))
    case Refused(_) => None
    case Page(items, next) => if next == "" || items == [] then None else Some(Request(next, q.limit, q.tick + 1))
  }

  /** `asked` are requests made one after the other, the first being `first`. */
  predicate Trace<R>(serve: Server<R>, first: Request, asked: seq<Request>) {
    && asked != [] && asked[0] == first
    && forall i :: 0 < i < |asked| ==> Next(serve, asked[i - 1]) == Some(asked[i])
  }

  function Last(asked: seq<Request>): Request
    requires asked != []
  {
    asked[|asked| - 1]
  }

  /** All requests of a run that came to its end. */
  predicate Finished<R>(serve: Server<R>, first: Request, asked: seq<Request>) {
    Trace(serve, first, asked) && Next(serve, Last(asked)).None?
  }

  lemma {:induction false} TracesAgree<R>(
    serve: Server<R>, first: Request, a: seq<Request>, b: seq<Request>, k: nat)
    requires Trace(serve, first, a) && Trace(serve, first, b) && k < |a| && k < |b|
    ensures a[k] == b[k]
  {
    if k > 0 {
      TracesAgree(serve, first, a, b, k - 1);
      GoesOn(serve, first, a, k - 1);
      GoesOn(serve, first, b, k - 1);
    }
  }

  lemma GoesOn<R>(serve: Server<R>, first: Request, asked: seq<Request>, k: nat)
    requires Trace(serve, first, asked) && k + 1 < |asked|
    ensures Next(serve, asked[k]) == Some(asked[k + 1])
  {
    assert Next(serve, asked[k + 1 - 1]) == Some(asked[k + 1]);
  }

  lemma NotLonger<R>(serve: Server<R>, first: Request, a: seq<Request>, b: seq<Request>)
    requires Finished(serve, first, a) && Trace(serve, first, b)
    ensures |b| <= |a|
  {
    if |a| < |b| {
      GoesOn(serve, first, b, |a| - 1);
      TracesAgree(serve, first, a, b, |a| - 1);
    }
  }

  /** The server and the first request determine the whole run. */
  lemma OneRun<R>(serve: Server<R>, first: Request, a: seq<Request>, b: seq<Request>)
    requires Finished(serve, first, a) && Finished(serve, first, b)
    ensures a == b
  {
    NotLonger(serve, first, a, b);
    NotLonger(serve, first, b, a);
    forall k | 0 <= k < |a| ensures a[k] == b[k] {
      TracesAgree(serve, first, a, b, k);
    }
  }

  lemma Extend<R>(serve: Server<R>, first: Request, asked: seq<Request>, q: Request)
    requires Trace(serve, first, asked) && Next(serve, Last(asked)) == Some(q)
    ensures Trace(serve, first, asked + [q])
  {}

  lemma TraceConcat<R>(serve: Server<R>, first: Request, asked: seq<Request>, q: Request, more: seq<Request>)
    requires Trace(serve, first, asked + [q]) && Trace(serve, q, more)
    ensures Trace(serve, first, asked + more)
  {
    var whole, upTo := asked + more, asked + [q];
    forall i | 0 < i < |whole| ensures Next(serve, whole[i - 1]) == Some(whole[i]) {
      if i <= |asked| {
        assert Next(serve, upTo[i - 1]) == Some(upTo[i]);
      } else {
        assert Next(serve, more[i - |asked| - 1]) == Some(more[i - |asked|]);
      }
    }
  }

  // ---------- Rejections ----------

  function IsRejected<R>(serve: Server<R>): Request -> nat {
    q => if Ask(serve, q).LimitExceeded? then 1 else 0
  }

  /** How many of the requests were answered "limit exceeded". */
  function Rejections<R>(serve: Server<R>, asked: seq<Request>): nat { Sum(asked, IsRejected(serve)) }

  /** How often a limit can be halved before it is one. */
  function Halvings(limit: nat): nat {
    if limit <= 1 then 0 else 1 + Halvings(limit / 2)
  }

  lemma {:induction false} HalvingsMonotone(a: nat, b: nat)
    requires a <= b
    ensures Halvings(a) <= Halvings(b)
  {
    if a > 1 { HalvingsMonotone(a / 2, b / 2); }
  }

  lemma NineForDefault()
    ensures Halvings(DEFAULT_CHUNK_SIZE) == 9
  {
    assert Halvings(125) == 6;
  }

  lemma ThirtyOneForWord()
    ensures Halvings(0x8000_0000) == 31
  {
    assert Halvings(0x20) == 5;
    assert Halvings(0x400) == 10;
    assert Halvings(0x8000) == 15;
    assert Halvings(0x10_0000) == 20;
    assert Halvings(0x200_0000) == 25;
    assert Halvings(0x4000_0000) == 30;
  }

  lemma HalfOf(x: int)
    requires x != 0
    ensures Abs(Half(x)) == Abs(x) / 2 && (Half(x) == 0 || (Half(x) > 0 <==> x > 0))
    ensures Half(x) == 0 <==> Halvings(Abs(x)) == 0
    ensures Half(x) != 0 ==> Halvings(Abs(x)) == 1 + Halvings(Abs(Half(x)))
  {}

  /** Every rejection is one halving, and a smaller limit is never raised again: what has been
      rejected before the last request and what its limit still allows is what the first limit
      allowed. */
  lemma {:induction false} LimitPersists<R>(serve: Server<R>, first: Request, asked: seq<Request>)
    requires Trace(serve, first, asked) && first.limit != 0
    ensures Last(asked).limit != 0
    ensures Rejections(serve, asked[..|asked| - 1]) + Halvings(Abs(Last(asked).limit)) == Halvings(Abs(first.limit))
  {
    if |asked| > 1 {
      var init := asked[..|asked| - 1];
      LimitPersists(serve, first, init);
      var q := Last(init);
      GoesOn(serve, first, asked, |asked| - 2);
      HalfOf(q.limit);
      SumAppend(init[..|init| - 1], IsRejected(serve), q);
      assert init == init[..|init| - 1] + [q];
    }
  }

  /** Every single item fits into a message. */
  ghost predicate SingleFits<R(!new)>(serve: Server<R>) {
    forall key, limit, tick :: (limit == 1 || limit == -1) ==> !serve(key, limit, tick).LimitExceeded?
  }

  ghost predicate NeverFails<R(!new)>(serve: Server<R>) {
    forall key, limit, tick :: !serve(key, limit, tick).Refused?
  }

  /** A whole run sees no more rejections than the first limit has halvings, plus one if it ends
      because a single item was rejected. */
  lemma RejectionsBound<R(!new)>(serve: Server<R>, first: Request, asked: seq<Request>)
    requires Trace(serve, first, asked) && first.limit != 0
    requires Ask(serve, Last(asked)).LimitExceeded? ==> Half(Last(asked).limit) == 0
    ensures Rejections(serve, asked)
      <= Halvings(Abs(first.limit)) + if Ask(serve, Last(asked)).LimitExceeded? then 1 else 0
    ensures SingleFits(serve) ==> !Ask(serve, Last(asked)).LimitExceeded?
  {
    var init, q := asked[..|asked| - 1], Last(asked);
    LimitPersists(serve, first, asked);
    HalfOf(q.limit);
    SumAppend(init, IsRejected(serve), q);
    assert asked == init + [q];
  }

  // ---------- What the pages add up to ----------

  function ItemsOf<R>(reply: Reply<R>): seq<R> { if reply.Page? then reply.items else [] }

  /** The items of all pages received, in order. */
  function Gathered<R>(serve: Server<R>, asked: seq<Request>): seq<R> {
    if asked == [] then []
    else Gathered(serve, asked[..|asked| - 1]) + ItemsOf(Ask(serve, asked[|asked| - 1]))
  }

  lemma GatheredAppend<R>(serve: Server<R>, asked: seq<Request>, q: Request)
    ensures Gathered(serve, asked + [q]) == Gathered(serve, asked) + ItemsOf(Ask(serve, q))
  {
    assert (asked + [q])[..|asked|] == asked;
  }

  /** All but the last of the requests were rejected. */
  predicate Retries<R>(serve: Server<R>, asked: seq<Request>) {
    forall i :: 0 <= i < |asked| - 1 ==> Ask(serve, asked[i]).LimitExceeded?
  }

  lemma {:induction false} GatheredRetries<R>(serve: Server<R>, asked: seq<Request>, more: seq<Request>)
    requires more != [] && Retries(serve, more)
    ensures Gathered(serve, asked + more) == Gathered(serve, asked) + ItemsOf(Ask(serve, Last(more)))
    decreases |more|
  {
    if |more| == 1 {
      assert more == [more[0]];
      GatheredAppend(serve, asked, more[0]);
    } else {
      assert Ask(serve, more[0]).LimitExceeded?;
      GatheredAppend(serve, asked, more[0]);
      assert asked + more == (asked + [more[0]]) + more[1..];
      GatheredRetries(serve, asked + [more[0]], more[1..]);
    }
  }

  /** The server cuts pages from one list: `pos` says which position a key stands for, and the
      empty next key is given only with the end of the list. Where it cuts, when it rejects and
      when it fails is up to the server. */
  ghost predicate Honest<R(!new)>(serve: Server<R>, items: seq<R>, pos: string -> nat) {
    forall key, limit, tick ::
      var reply := serve(key, limit, tick);
      pos(key) <= |items| && reply.Page? ==> PageOf(items, pos, pos(key), reply)
  }

  ghost predicate PageOf<R>(items: seq<R>, pos: string -> nat, p: nat, reply: Reply<R>)
    requires reply.Page?
  {
    var q := p + |reply.items|;
    && q <= |items|
    && reply.items == items[p..q]
    && (if reply.next == "" then q == |items| else pos(reply.next) == q)
  }

  /** The part of the list from a key on. */
  ghost function From<R>(items: seq<R>, pos: string -> nat, key: string): seq<R>
    requires pos(key) <= |items|
  {
    items[pos(key)..]
  }

  lemma OnePageFurther<R>(items: seq<R>, pos: string -> nat, start: nat, p: nat, reply: Reply<R>)
    requires start <= p <= |items| && (reply.Page? ==> PageOf(items, pos, p, reply))
    ensures p + |ItemsOf(reply)| <= |items|
    ensures items[start..p] + ItemsOf(reply) == items[start..p + |ItemsOf(reply)|]
    ensures items[start..p] + ItemsOf(reply) <= items[start..]
  {}

  /** Before its last request a run has gathered the list up to that request's key. */
  lemma {:induction false} GatheredUpTo<R(!new)>(
    serve: Server<R>, items: seq<R>, pos: string -> nat, first: Request, asked: seq<Request>)
    requires Honest(serve, items, pos) && Trace(serve, first, asked) && pos(first.key) <= |items|
    ensures pos(first.key) <= pos(Last(asked).key) <= |items|
    ensures Gathered(serve, asked[..|asked| - 1]) == items[pos(first.key)..pos(Last(asked).key)]
  {
    if |asked| > 1 {
      var init, last := asked[..|asked| - 1], Last(asked);
      GatheredUpTo(serve, items, pos, first, init);
      GoesOn(serve, first, asked, |asked| - 2);
      var q := Last(init);
      OnePageFurther(items, pos, pos(first.key), pos(q.key), Ask(serve, q));
      assert pos(last.key) == pos(q.key) + |ItemsOf(Ask(serve, q))|;
    }
  }

  /** An empty page although the list goes on. */
  ghost predicate EmptyBeforeEnd<R>(serve: Server<R>, items: seq<R>, pos: string -> nat, q: Request) {
    Ask(serve, q).Page? && Ask(serve, q).items == [] && pos(q.key) < |items|
  }

  ghost predicate NoEmptyPage<R>(serve: Server<R>, items: seq<R>, pos: string -> nat, asked: seq<Request>) {
    forall i :: 0 <= i < |asked| ==> !EmptyBeforeEnd(serve, items, pos, asked[i])
  }

  /** What a run has gathered is always the beginning of the list. If its last request brought a
      page, it is the whole list exactly if no request was answered by an empty page before the
      end. */
  lemma WholeListIff<R(!new)>(
    serve: Server<R>, items: seq<R>, pos: string -> nat, first: Request, asked: seq<Request>)
    requires Honest(serve, items, pos) && Trace(serve, first, asked) && pos(first.key) <= |items|
    ensures Gathered(serve, asked) <= From(items, pos, first.key)
    ensures Finished(serve, first, asked) && Ask(serve, Last(asked)).Page? ==>
      (Gathered(serve, asked) == From(items, pos, first.key) <==> NoEmptyPage(serve, items, pos, asked))
  {
    GatheredUpTo(serve, items, pos, first, asked);
    OnePageFurther(items, pos, pos(first.key), pos(Last(asked).key), Ask(serve, Last(asked)));
    forall i | 0 <= i < |asked| - 1 ensures !EmptyBeforeEnd(serve, items, pos, asked[i]) {
      GoesOn(serve, first, asked, i);
    }
  }

  /** What a run that converts nothing answers: the last reply decides. */
  function Verdict<R>(serve: Server<R>, asked: seq<Request>): (r: Outcome<seq<R>>)
    requires asked != []
    ensures r.TooLarge? <==> Ask(serve, Last(asked)).LimitExceeded?
    ensures if r.ServerError? then Ask(serve, Last(asked)) == Refused(r.error) else !Ask(serve, Last(asked)).Refused?
    ensures !r.BadResource?
  {
    match Ask(serve, Last(asked))
    case LimitExceeded => TooLarge
    case Refused(e) => ServerError(e)
    case Page(_, _) => Ok(Gathered(serve, asked))
  }

  function EmptyPages<R>(): Server<R> { (key, limit, tick) => Page([], "more") }

  function Zero(): string -> nat { key => 0 }

  lemma EmptyPagesHonest<R(!new)>(x: R)
    ensures Honest(EmptyPages<R>(), [x], Zero())
  {
    assert [x][0..0] == [];
  }

  lemma OneRequest<R>(serve: Server<R>, first: Request, asked: seq<Request>)
    requires Finished(serve, first, asked) && Next(serve, first).None?
    ensures asked == [first] && Gathered(serve, asked) == ItemsOf(Ask(serve, first))
  {
    OneRun(serve, first, asked, [first]);
    assert asked[..0] == [];
  }

  /** A list that is not empty comes back empty, as a success, from a server that sends empty
      pages with a next key. */
  lemma EmptyPageEndsList<R(!new)>(x: R, asked: seq<Request>)
    requires Finished(EmptyPages<R>(), Request("", DEFAULT_CHUNK_SIZE, 0), asked)
    ensures Honest(EmptyPages<R>(), [x], Zero()) && Verdict(EmptyPages<R>(), asked) == Ok([])
    ensures !NoEmptyPage(EmptyPages<R>(), [x], Zero(), asked)
  {
    EmptyPagesHonest(x);
    OneRequest(EmptyPages<R>(), Request("", DEFAULT_CHUNK_SIZE, 0), asked);
    assert EmptyBeforeEnd(EmptyPages<R>(), [x], Zero(), asked[0]);
  }

  // ---------- Conversion of a page ----------

  /** `out` is `xs` converted element by element. */
  predicate Converts<R, T(==)>(convert: R -> Option<T>, xs: seq<R>, out: seq<T>) {
    |out| == |xs| && forall i :: 0 <= i < |xs| ==> convert(xs[i]) == Some(out[i])
  }

  predicate AllConvert<R, T(==)>(convert: R -> Option<T>, xs: seq<R>) {
    forall i :: 0 <= i < |xs| ==> convert(xs[i]).Some?
  }

  method ConvertPage<R, T(==)>(convert: R -> Option<T>, xs: seq<R>) returns (r: Option<seq<T>>)
    ensures r.Some? ==> Converts(convert, xs, r.value)
    ensures r.None? ==> !AllConvert(convert, xs)
  {
    var out: seq<T> := [];
    for i := 0 to |xs|
      invariant Converts(convert, xs[..i], out)
    {
      var t := convert(xs[i]);
      if t.None? {
        return None;
      }
      out := out + [t.value];
    }
    assert xs[..|xs|] == xs;
    return Some(out);
  }

  // ---------- GetResourcePage and GetAllResources ----------

  function Normal(limit: int): (n: int)
    ensures 1 <= n <= 1000 && (1 <= limit <= 1000 ==> n == limit) && (n != limit ==> n == 1000)
  {
    if limit <= 0 || limit > DEFAULT_CHUNK_SIZE then DEFAULT_CHUNK_SIZE else limit
  }

  /** One page. The limit is a field of the request, so the halved value is handed back.
      `asked` are the requests made: all but the last were rejected, each next one is at half the
      limit, and the last reply decides. */
  method GetResourcePage<R(!new), T(==)>(
      serve: Server<R>, convert: R -> Option<T>, key: string, limit0: int, tick0: nat)
    returns (r: Outcome<(seq<T>, string)>, limit: int, tick: nat, ghost asked: seq<Request>)
    ensures Trace(serve, Request(key, Normal(limit0), tick0), asked) && Retries(serve, asked)
    ensures tick == Last(asked).tick + 1
    ensures !r.TooLarge? ==> 1 <= limit <= Normal(limit0) && Last(asked).key == key && Last(asked).limit == limit
    ensures match Ask(serve, Last(asked))
      case LimitExceeded => r.TooLarge? && Half(Last(asked).limit) == 0
      case Refused(e) => r == ServerError(e)
      case Page(items, next) =>
        if AllConvert(convert, items) then r.Ok? && Converts(convert, items, r.value.0) && r.value.1 == next
        else r.BadResource?
    ensures Rejections(serve, asked) <= Halvings(Normal(limit0)) + if r.TooLarge? then 1 else 0
    ensures SingleFits(serve) ==> !r.TooLarge?
  {
    limit, tick, asked := Normal(limit0), tick0, [];
    ghost var first := Request(key, limit, tick);
    while true
      invariant 1 <= limit <= Normal(limit0)
      invariant Trace(serve, first, asked + [Request(key, limit, tick)])
      invariant Retries(serve, asked + [Request(key, limit, tick)])
      decreases limit
    {
      var reply := serve(key, limit, tick);
      asked, tick := asked + [Request(key, limit, tick)], tick + 1;
      match reply
      case LimitExceeded =>
        limit := limit / 2;
        if limit == 0 {
          RejectionsBound(serve, first, asked);
          return TooLarge, limit, tick, asked;
        }
        Extend(serve, first, asked, Request(key, limit, tick));
      case Refused(e) =>
        RejectionsBound(serve, first, asked);
        return ServerError(e), limit, tick, asked;
      case Page(items, next) =>
        RejectionsBound(serve, first, asked);
        var out := ConvertPage(convert, items);
        return if out.Some? then Ok((out.value, next)) else BadResource, limit, tick, asked;
    }
  }

  lemma PageAdded<R>(serve: Server<R>, first: Request, asked: seq<Request>, q: Request, more: seq<Request>)
    requires Trace(serve, first, asked + [q]) && Trace(serve, q, more) && Retries(serve, more)
    ensures Trace(serve, first, asked + more) && Last(asked + more) == Last(more)
    ensures Gathered(serve, asked + more) == Gathered(serve, asked) + ItemsOf(Ask(serve, Last(more)))
  {
    TraceConcat(serve, first, asked, q, more);
    GatheredRetries(serve, asked, more);
  }

  lemma ConvertsConcat<R, T>(convert: R -> Option<T>, a: seq<R>, b: seq<R>, outA: seq<T>, outB: seq<T>)
    requires Converts(convert, a, outA) && Converts(convert, b, outB)
    ensures Converts(convert, a + b, outA + outB)
  {}

  lemma AllConvertConcat<R, T>(convert: R -> Option<T>, a: seq<R>, b: seq<R>, out: seq<T>)
    requires Converts(convert, a, out)
    ensures AllConvert(convert, a + b) <==> AllConvert(convert, b)
  {
    if AllConvert(convert, a + b) {
      assert forall i :: 0 <= i < |b| ==> b[i] == (a + b)[|a| + i];
    }
  }

  lemma ConvertsWhole<R, T>(convert: R -> Option<T>, a: seq<R>, b: seq<R>, out: seq<T>)
    requires a <= b && Converts(convert, a, out)
    ensures Converts(convert, b, out) <==> a == b
  {}

  /** How a run that converts its pages relates to the list. */
  lemma ConvertedList<R(!new), T>(
    serve: Server<R>, convert: R -> Option<T>, items: seq<R>, pos: string -> nat, first: Request,
    asked: seq<Request>)
    requires Honest(serve, items, pos) && Trace(serve, first, asked) && pos(first.key) <= |items|
    ensures AllConvert(convert, From(items, pos, first.key)) ==> AllConvert(convert, Gathered(serve, asked))
    ensures Finished(serve, first, asked) && Ask(serve, Last(asked)).Page? ==>
      (Gathered(serve, asked) == From(items, pos, first.key) <==> NoEmptyPage(serve, items, pos, asked))
    ensures Gathered(serve, asked) <= From(items, pos, first.key)
  {
    WholeListIff(serve, items, pos, first, asked);
    var a, b := Gathered(serve, asked), From(items, pos, first.key);
    assert forall i :: 0 <= i < |a| ==> a[i] == b[i];
  }

  /** All pages. `asked` are the requests made, over all pages. A success is the conversion of
      what they brought; the run fails on an item that does not convert exactly if they brought
      one. Against a server that cuts pages from `items` that is the beginning of the list from
      the start key on, and for a success the whole of it exactly if no request was answered by
      an empty page before the end. The halved limit is kept from page to page, so all pages
      together see at most nine rejections, and a tenth only to give up; and if every item fits
      and the server does not fail, the run succeeds when every item converts. */
  method GetAllResources<R(!new), T(==)>(serve: Server<R>, convert: R -> Option<T>, startKey: string,
      ghost items: seq<R>, ghost pos: string -> nat)
    returns (r: Outcome<seq<T>>, ghost asked: seq<Request>)
    requires Honest(serve, items, pos) && pos(startKey) <= |items|
    ensures Trace(serve, Request(startKey, DEFAULT_CHUNK_SIZE, 0), asked)
    ensures !r.BadResource? ==> Finished(serve, Request(startKey, DEFAULT_CHUNK_SIZE, 0), asked)
    ensures r.BadResource? <==> !AllConvert(convert, Gathered(serve, asked))
    ensures r.TooLarge? <==> Ask(serve, Last(asked)).LimitExceeded?
    ensures if r.ServerError? then Ask(serve, Last(asked)) == Refused(r.error) else !Ask(serve, Last(asked)).Refused?
    ensures r.Ok? ==> Converts(convert, Gathered(serve, asked), r.value)
    ensures Gathered(serve, asked) <= From(items, pos, startKey)
    ensures r.Ok? ==>
      (Converts(convert, From(items, pos, startKey), r.value) <==> NoEmptyPage(serve, items, pos, asked))
    ensures Rejections(serve, asked) <= 9 + if r.TooLarge? then 1 else 0
    ensures SingleFits(serve) ==> !r.TooLarge?
    ensures SingleFits(serve) && NeverFails(serve) && AllConvert(convert, From(items, pos, startKey)) ==> r.Ok?
  {
    var out: seq<T>, key, limit, tick := [], startKey, DEFAULT_CHUNK_SIZE, 0;
    ghost var first := Request(startKey, DEFAULT_CHUNK_SIZE, 0);
    asked := [];
    NineForDefault();
    while true
      invariant 1 <= limit <= DEFAULT_CHUNK_SIZE && pos(key) <= |items|
      invariant Trace(serve, first, asked + [Request(key, limit, tick)])
      invariant Converts(convert, Gathered(serve, asked), out)
      decreases |items| - pos(key)
    {
      ghost var q := Request(key, limit, tick);
      ghost var more;
      var page;
      page, limit, tick, more := GetResourcePage(serve, convert, key, limit, tick);
      PageAdded(serve, first, asked, q, more);
      ghost var before, xs := Gathered(serve, asked), ItemsOf(Ask(serve, Last(more)));
      AllConvertConcat(convert, before, xs, out);
      asked := asked + more;
      RejectionsBound(serve, first, asked);
      ConvertedList(serve, convert, items, pos, first, asked);
      match page
      case TooLarge => return TooLarge, asked;
      case ServerError(e) => return ServerError(e), asked;
      case BadResource => return BadResource, asked;
      case Ok((resources, next)) =>
        ConvertsConcat(convert, before, xs, out, resources);
        out := out + resources;
        if next == "" || |resources| == 0 {
          ConvertsWhole(convert, Gathered(serve, asked), From(items, pos, startKey), out);
          return Ok(out), asked;
        }
        GatheredUpTo(serve, items, pos, first, asked);
        key := next;
        Extend(serve, first, asked, Request(key, limit, tick));
    }
  }

  // ---------- The loops that keep the chunk size in a local variable ----------

  /** The loop shared by `GetResourcesWithFilters` and `GetKubernetesResourcesWithFilters`,
      which start it with different keys and chunk sizes. The requests made and the answer are
      those of the one run that the server and the first request determine. */
  method ListInChunks<R(!new)>(serve: Server<R>, startKey0: string, chunkSize0: int,
      ghost items: seq<R>, ghost pos: string -> nat)
    returns (r: Outcome<seq<R>>, ghost asked: seq<Request>)
    requires Honest(serve, items, pos) && pos(startKey0) <= |items| && chunkSize0 != 0
    ensures Finished(serve, Request(startKey0, chunkSize0, 0), asked) && r == Verdict(serve, asked)
    ensures r.Ok? ==> r.value <= From(items, pos, startKey0)
    ensures r.Ok? ==> (r.value == From(items, pos, startKey0) <==> NoEmptyPage(serve, items, pos, asked))
    ensures Rejections(serve, asked) <= Halvings(Abs(chunkSize0)) + if r.TooLarge? then 1 else 0
    ensures SingleFits(serve) ==> !r.TooLarge?
    ensures SingleFits(serve) && NeverFails(serve) ==> r.Ok?
  {
    var resources: seq<R>, startKey, chunkSize, tick := [], startKey0, chunkSize0, 0;
    ghost var first := Request(startKey0, chunkSize0, 0);
    asked := [];
    while true
      invariant chunkSize != 0 && pos(startKey) <= |items|
      invariant Trace(serve, first, asked + [Request(startKey, chunkSize, tick)])
      invariant resources == Gathered(serve, asked)
      decreases |items| - pos(startKey), Abs(chunkSize)
    {
      var reply := serve(startKey, chunkSize, tick);
      ghost var q := Request(startKey, chunkSize, tick);
      GatheredAppend(serve, asked, q);
      asked, tick := asked + [q], tick + 1;
      assert Last(asked) == q;
      match reply
      case LimitExceeded =>
        HalfOf(chunkSize);
        chunkSize := Half(chunkSize);
        if chunkSize == 0 {
          RejectionsBound(serve, first, asked);
          return TooLarge, asked;
        }
        Extend(serve, first, asked, Request(startKey, chunkSize, tick));
      case Refused(e) =>
        RejectionsBound(serve, first, asked);
        return ServerError(e), asked;
      case Page(page, next) =>
        assert PageOf(items, pos, pos(startKey), reply);
        startKey, resources := next, resources + page;
        if startKey == "" || page == [] {
          RejectionsBound(serve, first, asked);
          WholeListIff(serve, items, pos, first, asked);
          return Ok(resources), asked;
        }
        Extend(serve, first, asked, Request(startKey, chunkSize, tick));
    }
  }

  method GetResourcesWithFilters<R(!new)>(serve: Server<R>, ghost items: seq<R>, ghost pos: string -> nat)
    returns (r: Outcome<seq<R>>, ghost asked: seq<Request>)
    requires Honest(serve, items, pos) && pos("") == 0
    ensures Finished(serve, Request("", DEFAULT_CHUNK_SIZE, 0), asked) && r == Verdict(serve, asked)
    ensures r.Ok? ==> r.value <= items
    ensures r.Ok? ==> (r.value == items <==> NoEmptyPage(serve, items, pos, asked))
    ensures Rejections(serve, asked) <= 9 + if r.TooLarge? then 1 else 0
    ensures SingleFits(serve) ==> !r.TooLarge?
    ensures SingleFits(serve) && NeverFails(serve) ==> r.Ok?
  {
    r, asked := ListInChunks(serve, "", DEFAULT_CHUNK_SIZE, items, pos);
    NineForDefault();
    assert From(items, pos, "") == items;
  }

  /** The 32-bit chunk size comes from the request; zero means the default. */
  method GetKubernetesResourcesWithFilters<R(!new)>(serve: Server<R>, startKey: string, limit: int,
      ghost items: seq<R>, ghost pos: string -> nat)
    returns (r: Outcome<seq<R>>, ghost asked: seq<Request>)
    requires Honest(serve, items, pos) && pos(startKey) <= |items|
    requires -0x8000_0000 <= limit < 0x8000_0000
    ensures Finished(serve, Request(startKey, if limit == 0 then DEFAULT_CHUNK_SIZE else limit, 0), asked)
    ensures r == Verdict(serve, asked)
    ensures r.Ok? ==> r.value <= From(items, pos, startKey)
    ensures r.Ok? ==> (r.value == From(items, pos, startKey) <==> NoEmptyPage(serve, items, pos, asked))
    ensures Rejections(serve, asked) <= 31 + if r.TooLarge? then 1 else 0
    ensures SingleFits(serve) ==> !r.TooLarge?
    ensures SingleFits(serve) && NeverFails(serve) ==> r.Ok?
  {
    var chunkSize := if limit == 0 then DEFAULT_CHUNK_SIZE else limit;
    r, asked := ListInChunks(serve, startKey, chunkSize, items, pos);
    HalvingsMonotone(Abs(chunkSize), 0x8000_0000);
    ThirtyOneForWord();
  }
}
