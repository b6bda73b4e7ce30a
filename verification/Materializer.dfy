/**
 Turning the response in a connection's slot into a backend response, with error pages as
 fallbacks: which page is tried after which failure, and when nothing at all can be queued.
 */
module Materializer {
  import opened Wrappers

  type Response = nat

  datatype Page = NotFoundPage | MethodPage | ErrorPage | EmptyErrorPage

  datatype Materialized = Raw | Null | ThrewInvalidArgument | ThrewOther

  /** What pages and bodies do, each choice indexed by the step at which it is asked for. */
  datatype Backend = Backend(
    page: (nat, Page) -> Response,
    pageThrows: nat -> bool,
    materialize: nat -> Materialized,
    lastResort: nat -> bool)

  /** One attempt: the page put into the slot first, the slot then, and no result when the page itself threw. */
  datatype Try = Try(page: Option<Page>, response: Response, result: Option<Materialized>)

  function Last(log: seq<Try>): (t: Try)
    requires log != []
  {
    log[|log| - 1]
  }

  /** The attempt at a step; only the page for a missing route may throw, and the last one never does. */
  function Tried(b: Backend, at: nat, page: Option<Page>, slot: Response): (t: Try)
    ensures t.page == page && (t.result.None? ==> page == Some(NotFoundPage))
  {
    if page == Some(NotFoundPage) && b.pageThrows(at) then Try(page, slot, None)
    else if page == Some(EmptyErrorPage)
        then Try(page, b.page(at, EmptyErrorPage), Some(if b.lastResort(at) then Raw else Null))
    else Try(page, if page.Some? then b.page(at, page.value) else slot, Some(b.materialize(at)))
  }

  /** Whether the attempts made so far are all under the outer catch: the first, and the one after a null. */
  predicate Guarded(log: seq<Try>)
    requires log != []
  {
    |log| == 1 || (|log| == 2 && log[0].result == Some(Null))
  }

  /** The page to try next, if any. */
  function After(log: seq<Try>): (p: Option<Page>)
    requires log != []
  {
    var last := Last(log);
    if last.result == Some(Raw) || last.page == Some(EmptyErrorPage) then None
    else if Guarded(log) && last.result == Some(ThrewInvalidArgument) then Some(NotFoundPage)
    else if Guarded(log) && last.result == Some(ThrewOther) then Some(ErrorPage)
    else if |log| == 1 then Some(ErrorPage)
    else Some(EmptyErrorPage)
  }

  ghost predicate Follows(b: Backend, at: nat, log: seq<Try>, i: nat)
    requires 0 < i < |log|
  {
    After(log[..i]).Some? && log[i] == Tried(b, at + i, After(log[..i]), log[i - 1].response)
  }

  /** The attempts of one response: the slot as it is, then every fallback in turn and no other. */
  ghost predicate Chain(b: Backend, at: nat, slot: Response, log: seq<Try>)
  {
    log != [] && log[0] == Tried(b, at, None, slot) && forall i :: 0 < i < |log| ==> Follows(b, at, log, i)
  }

  lemma Start(b: Backend, at: nat, slot: Response)
    ensures Chain(b, at, slot, [Tried(b, at, None, slot)])
  {
  }

  lemma Extend(b: Backend, at: nat, slot: Response, log: seq<Try>)
    requires Chain(b, at, slot, log) && After(log).Some?
    ensures Chain(b, at, slot, log + [Tried(b, at + |log|, After(log), Last(log).response)])
  {
    hide After, Tried;
    var t := log + [Tried(b, at + |log|, After(log), Last(log).response)];
    forall i | 0 < i < |t| ensures Follows(b, at, t, i) {
      assert t[..i] == log[..i] && t[i - 1] == log[i - 1];
      if i < |log| { assert Follows(b, at, log, i); } else { assert log[..i] == log; }
    }
  }

  /** Every attempt but the last failed, and the last succeeded or was the empty 500. */
  lemma ChainShape(b: Backend, at: nat, slot: Response, log: seq<Try>)
    requires Chain(b, at, slot, log) && After(log).None?
    ensures |log| <= 4
    ensures forall i :: 0 <= i < |log| - 1 ==> log[i].result != Some(Raw) && log[i].page != Some(EmptyErrorPage)
    ensures Last(log).result == Some(Raw) || Last(log).page == Some(EmptyErrorPage)
  {
    forall i | 0 <= i < |log| - 1 ensures log[i].result != Some(Raw) && log[i].page != Some(EmptyErrorPage) {
      assert Follows(b, at, log, i + 1);
    }
    if |log| > 3 { assert Follows(b, at, log, 3); }
  }

  lemma OneOfFour(m: Materialized)
    ensures m == Raw || m == Null || m == ThrewInvalidArgument || m == ThrewOther
  {
  }

  /**
   What is tried next: after a null the error page, after an invalid argument the 404 page, after any other exception
   the error page, and the empty 500 when those are used up.
   */
  lemma FallbackPages(b: Backend, at: nat, slot: Response, log: seq<Try>, i: nat)
    requires Chain(b, at, slot, log) && 0 < i < |log|
    ensures log[0].page == None && log[0].response == slot && log[0].result == Some(b.materialize(at))
    ensures i == 1 ==>
              log[1].page == Some(if log[0].result == Some(ThrewInvalidArgument) then NotFoundPage else ErrorPage)
    ensures i == 2 ==>
              log[2].page == Some(if log[0].result != Some(Null) || log[1].result == Some(Null) then EmptyErrorPage
                                  else if log[1].result == Some(ThrewInvalidArgument) then NotFoundPage
                                  else ErrorPage)
    ensures i == 3 ==> log[3].page == Some(EmptyErrorPage)
    ensures log[i].page.Some? && (log[i].result.Some? ==> log[i].response == b.page(at + i, log[i].page.value))
    ensures log[i].result.None? <==> log[i].page == Some(NotFoundPage) && b.pageThrows(at + i)
  {
    assert Follows(b, at, log, i) && Follows(b, at, log, 1);
    assert log[..1][0] == log[0] && log[..i][0] == log[0];
    if i == 2 && log[1].result.Some? { OneOfFour(log[1].result.value); }
    if i == 3 { assert Follows(b, at, log, 2); }
  }

  /** Nothing can be queued: the response, the pages that stand in for it and the empty 500 all fail. */
  predicate Hopeless(b: Backend, at: nat)
  {
    match b.materialize(at)
    case Raw => false
    case Null =>
      (match b.materialize(at + 1)
       case Raw => false
       case Null => !b.lastResort(at + 2)
       case ThrewInvalidArgument => NoPage(b, at + 2) && !b.lastResort(at + 3)
       case ThrewOther => b.materialize(at + 2) != Raw && !b.lastResort(at + 3))
    case ThrewInvalidArgument => NoPage(b, at + 1) && !b.lastResort(at + 2)
    case ThrewOther => b.materialize(at + 1) != Raw && !b.lastResort(at + 2)
  }

  /** The page for a missing route threw or could not be turned into a response. */
  predicate NoPage(b: Backend, at: nat) { b.pageThrows(at) || b.materialize(at) != Raw }

  lemma Prefixes(b: Backend, at: nat, slot: Response, log: seq<Try>, i: nat)
    requires Chain(b, at, slot, log) && 0 < i <= |log|
    ensures Last(log[..i]) == log[i - 1] && (i > 1 ==> log[..i][0] == log[0])
    ensures i < |log| ==> After(log[..i]).Some? && log[i] == Tried(b, at + i, After(log[..i]), log[i - 1].response)
    ensures i == |log| ==> log[..i] == log
  {
    if i < |log| { assert Follows(b, at, log, i); }
  }

  lemma RefusedExactly(b: Backend, at: nat, slot: Response, log: seq<Try>)
    requires Chain(b, at, slot, log) && After(log).None?
    ensures Last(log).result != Some(Raw) <==> Hopeless(b, at)
    ensures Last(log).response == slot <== |log| == 1
    ensures |log| == 1 <==> b.materialize(at) == Raw
  {
    ChainShape(b, at, slot, log);
    Prefixes(b, at, slot, log, 1);
    if |log| > 1 { Prefixes(b, at, slot, log, 2); }
    if |log| > 2 { Prefixes(b, at, slot, log, 3); }
    if |log| > 3 { Prefixes(b, at, slot, log, 4); }
  }
}
