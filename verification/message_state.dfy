/** Message state: a message that no handler has claimed yet, or the output of the one
    handler that claimed it. `handle` tries one typed handler and is chained, with `?`
    between links, so that the first handler whose method and params match runs and
    every later link passes the handled state through. */
module MessageState {
  import opened Wrappers
  import opened Lsp

  datatype MessageState<I, O> = Unhandled(input: I) | Handled(output: O)

  /** `extract(method)` succeeds on a message with method `messageMethod` and `params`:
      the method names agree and the params decode. */
  predicate Accepts<P>(messageMethod: string, params: Value, methodName: string, decode: Value -> Option<P>)
  {
    messageMethod == methodName && decode(params).Some?
  }

  /** A notification handler fires on `state` exactly when the state is unhandled and
      `extract(method)` succeeds on the message. */
  predicate NotificationFires<P>(state: MessageState<Notification, ()>, methodName: string, decode: Value -> Option<P>)
  {
    state.Unhandled? && Accepts(state.input.methodName, state.input.params, methodName, decode)
  }

  /** `handle` for notifications: run `handler` on the decoded params if the
      notification is unhandled and matches `methodName`; an error of the handler is returned. */
  function HandleNotification<P>(
    state: MessageState<Notification, ()>,
    methodName: string,
    decode: Value -> Option<P>,
    handler: P -> Result<(), Error>
  ): (r: Result<MessageState<Notification, ()>, Error>)
    ensures !NotificationFires(state, methodName, decode) ==> r == Success(state)
    ensures NotificationFires(state, methodName, decode) ==>
      var outcome := handler(decode(state.input.params).value);
      && (r.Failure? <==> outcome.Failure?)
      && (r.Failure? ==> r.error == outcome.error)
      && (r.Success? ==> r.value == Handled(()))
  {
    match state
    case Unhandled(not) =>
      (match ExtractNotification(not, methodName, decode)
       case Success(params) =>
         (match handler(params)
          case Failure(e) => Failure(e)
          case Success(_) => Success(Handled(())))
       case Failure(_) => Success(Unhandled(not)))
    case Handled(_) => Success(state)
  }

  /** A request handler fires on `state` exactly when the state is unhandled and
      `extract(method)` succeeds on the request. */
  predicate RequestFires<P>(state: MessageState<Request, Response>, methodName: string, decode: Value -> Option<P>)
  {
    state.Unhandled? && Accepts(state.input.methodName, state.input.params, methodName, decode)
  }

  /** `handle` for requests: as for notifications, and a successful handler's result is
      serialised (`encode`) into a response that carries the request's own id. */
  function HandleRequest<P, R>(
    state: MessageState<Request, Response>,
    methodName: string,
    decode: Value -> Option<P>,
    encode: R -> Value,
    handler: P -> Result<R, Error>
  ): (r: Result<MessageState<Request, Response>, Error>)
    ensures !RequestFires(state, methodName, decode) ==> r == Success(state)
    ensures RequestFires(state, methodName, decode) ==>
      var outcome := handler(decode(state.input.params).value);
      && (r.Failure? <==> outcome.Failure?)
      && (r.Failure? ==> r.error == outcome.error)
      && (r.Success? ==>
            && r.value.Handled?
            && r.value.output.id == state.input.id
            && r.value.output.result == Some(encode(outcome.value))
            && r.value.output.error == None)
  {
    match state
    case Unhandled(req) =>
      (match ExtractRequest(req, methodName, decode)
       case Success((id, params)) =>
         (match handler(params)
          case Failure(e) => Failure(e)
          case Success(result) => Success(Handled(Response(id, Some(encode(result)), None))))
       case Failure(_) => Success(Unhandled(req)))
    case Handled(_) => Success(state)
  }

  /** A handler that does not fire is never run: whatever it would do, `handle` gives
      the same state. */
  lemma HandleNotificationIgnoresIdleHandler<P>(
    state: MessageState<Notification, ()>, methodName: string, decode: Value -> Option<P>,
    handler1: P -> Result<(), Error>, handler2: P -> Result<(), Error>)
    requires !NotificationFires(state, methodName, decode)
    ensures HandleNotification(state, methodName, decode, handler1) == HandleNotification(state, methodName, decode, handler2)
  {
  }

  lemma HandleRequestIgnoresIdleHandler<P, R>(
    state: MessageState<Request, Response>, methodName: string, decode: Value -> Option<P>,
    encode: R -> Value, handler1: P -> Result<R, Error>, handler2: P -> Result<R, Error>)
    requires !RequestFires(state, methodName, decode)
    ensures HandleRequest(state, methodName, decode, encode, handler1) == HandleRequest(state, methodName, decode, encode, handler2)
  {
  }

  // ---------------------------------------------------------------------------
  // Chains of notification handlers

  /** One `.handle::<N, _>(handler)?` link of a chain, with the handler's parameter type
      erased to `Value`: `decode` keeps the params when they decode as `N::Params`. */
  datatype Link = Link(methodName: string, decode: Value -> Option<Value>, handler: Value -> Result<(), Error>)

  /** Erase a typed link so that links of different parameter types can form one chain. */
  function Erase<P>(methodName: string, decode: Value -> Option<P>, handler: P -> Result<(), Error>): (link: Link)
    ensures link.methodName == methodName
    ensures forall v :: link.decode(v).Some? <==> decode(v).Some?
  {
    Link(
      methodName,
      v => if decode(v).Some? then Some(v) else None,
      v => if decode(v).Some? then handler(decode(v).value) else Success(()))
  }

  function HandleLink(state: MessageState<Notification, ()>, link: Link): Result<MessageState<Notification, ()>, Error>
  {
    HandleNotification(state, link.methodName, link.decode, link.handler)
  }

  /** The erased link behaves exactly like the typed `handle` call it stands for. */
  lemma EraseIsFaithful<P>(
    state: MessageState<Notification, ()>, methodName: string,
    decode: Value -> Option<P>, handler: P -> Result<(), Error>)
    ensures HandleLink(state, Erase(methodName, decode, handler)) == HandleNotification(state, methodName, decode, handler)
  {
    var link := Erase(methodName, decode, handler);
    if NotificationFires(state, methodName, decode) {
      var v := state.input.params;
      assert link.decode(v) == Some(v);
      assert link.handler(link.decode(v).value) == handler(decode(v).value);
    }
  }

  /** A chain of `handle` calls joined by `?`: the first error stops the chain. */
  function Dispatch(state: MessageState<Notification, ()>, links: seq<Link>): (r: Result<MessageState<Notification, ()>, Error>)
    ensures r.Success? && r.value.Unhandled? ==> r.value == state
    decreases |links|
  {
    if links == [] then Success(state)
    else match HandleLink(state, links[0])
      case Failure(e) => Failure(e)
      case Success(next) => Dispatch(next, links[1..])
  }

  /** `link` fires on the unhandled notification `not`. */
  predicate Matches(not: Notification, link: Link) {
    Accepts(not.methodName, not.params, link.methodName, link.decode)
  }

  /** The index of the first link in chain order whose method and params match `not`. */
  function FirstMatch(not: Notification, links: seq<Link>): (r: Option<nat>)
    ensures r.Some? ==> r.value < |links| && Matches(not, links[r.value])
    ensures r.Some? ==> forall j :: 0 <= j < r.value ==> !Matches(not, links[j])
    ensures r.None? ==> forall j :: 0 <= j < |links| ==> !Matches(not, links[j])
    decreases |links|
  {
    if links == [] then None
    else if Matches(not, links[0]) then Some(0)
    else match FirstMatch(not, links[1..])
      case None => None
      case Some(i) => Some(i + 1)
  }

  /** What a chain produces once the handler of `link` has run on `not`. */
  function Outcome(not: Notification, link: Link): Result<MessageState<Notification, ()>, Error>
    requires Matches(not, link)
  {
    match link.handler(link.decode(not.params).value)
    case Failure(e) => Failure(e)
    case Success(_) => Success(Handled(()))
  }

  /** Once handled, a message passes through any chain unchanged and no handler runs. */
  lemma {:induction false} DispatchHandledPassesThrough(links: seq<Link>)
    ensures Dispatch(Handled(()), links) == Success(Handled(()))
    decreases |links|
  {
    if links != [] {
      DispatchHandledPassesThrough(links[1..]);
    }
  }

  /** First match wins: the chain's result is decided by the first matching link's
      handler alone, and an unmatched message comes back untouched. */
  lemma {:induction false} DispatchFirstMatchWins(not: Notification, links: seq<Link>)
    ensures FirstMatch(not, links).None? ==> Dispatch(Unhandled(not), links) == Success(Unhandled(not))
    ensures FirstMatch(not, links).Some? ==>
      Dispatch(Unhandled(not), links) == Outcome(not, links[FirstMatch(not, links).value])
    decreases |links|
  {
    if links != [] {
      if Matches(not, links[0]) {
        match links[0].handler(links[0].decode(not.params).value)
        case Failure(e) =>
        case Success(_) =>
          DispatchHandledPassesThrough(links[1..]);
      } else {
        DispatchFirstMatchWins(not, links[1..]);
      }
    }
  }

  /** The two chains accept `not` at the same links. */
  predicate SameMatching(not: Notification, links1: seq<Link>, links2: seq<Link>) {
    |links1| == |links2| &&
    forall j :: 0 <= j < |links1| ==>
      links1[j].methodName == links2[j].methodName && links1[j].decode(not.params) == links2[j].decode(not.params)
  }

  /** The first link of `links1` that fires on `not` has the same outcome as the link at
      the same index of `links2`. */
  predicate SameFirstOutcome(not: Notification, links1: seq<Link>, links2: seq<Link>) {
    FirstMatch(not, links1).Some? ==>
      var i := FirstMatch(not, links1).value;
      && i < |links2|
      && Matches(not, links2[i])
      && Outcome(not, links1[i]) == Outcome(not, links2[i])
  }

  /** At most one handler runs: two chains that accept `not` at the same links and whose
      first matching handlers agree on it give the same result, however all their other
      handlers behave. */
  lemma DispatchRunsOnlyFirstMatch(not: Notification, links1: seq<Link>, links2: seq<Link>)
    requires SameMatching(not, links1, links2)
    requires SameFirstOutcome(not, links1, links2)
    ensures Dispatch(Unhandled(not), links1) == Dispatch(Unhandled(not), links2)
  {
    FirstMatchOnlyReadsMatching(not, links1, links2);
    DispatchFirstMatchWins(not, links1);
    DispatchFirstMatchWins(not, links2);
  }

  lemma {:induction false} FirstMatchOnlyReadsMatching(not: Notification, links1: seq<Link>, links2: seq<Link>)
    requires SameMatching(not, links1, links2)
    ensures FirstMatch(not, links1) == FirstMatch(not, links2)
    decreases |links1|
  {
    if links1 != [] {
      assert SameMatching(not, links1[1..], links2[1..]) by {
        forall j | 0 <= j < |links1[1..]|
          ensures links1[1..][j].methodName == links2[1..][j].methodName
          ensures links1[1..][j].decode(not.params) == links2[1..][j].decode(not.params)
        {
          assert links1[1..][j] == links1[j + 1];
          assert links2[1..][j] == links2[j + 1];
        }
      }
      FirstMatchOnlyReadsMatching(not, links1[1..], links2[1..]);
    }
  }
}
