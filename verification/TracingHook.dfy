/**
 The tracing request hook, and whole trees of nested requests on one thread.

 A hook is made for one request and destroyed when the request is over; its members are destroyed in the reverse of
 their declaration order, so the scope goes before the remote scope.
 */
module TracingHook {
  import opened Wrappers
  import opened Tracing

  // ---------- the thread's context stack ----------

  datatype Frame = Frame(token: nat, span: Span)

  /** `next` is a token not used before; every attached context is a new object. */
  datatype Thread = Thread(stack: seq<Frame>, next: nat, metadata: Metadata)

  datatype DetachRule = TopOnly | Unwinding

  function Current(stack: seq<Frame>): Span {
    if stack == [] then NO_SPAN else stack[|stack| - 1].span
  }

  function Attach(th: Thread, span: Span): Thread {
    th.(stack := th.stack + [Frame(th.next, span)], next := th.next + 1)
  }

  predicate Holds(stack: seq<Frame>, token: nat) {
    exists i :: 0 <= i < |stack| && stack[i].token == token
  }

  function PopDownTo(stack: seq<Frame>, token: nat): seq<Frame> {
    if stack == [] then []
    else if stack[|stack| - 1].token == token then stack[..|stack| - 1]
    else PopDownTo(stack[..|stack| - 1], token)
  }

  function Detach(rule: DetachRule, stack: seq<Frame>, token: Option<nat>): seq<Frame> {
    if token.None? || !Holds(stack, token.value) then stack
    else if rule.TopOnly? && stack[|stack| - 1].token != token.value then stack
    else PopDownTo(stack, token.value)
  }

  /**
   Detaching, by the position of the token: one that is attached nowhere changes nothing; the one on top is popped; one
   below the top is left alone, or popped with everything above it.
   */
  lemma DetachExactly(rule: DetachRule, stack: seq<Frame>, token: nat)
    requires forall j, k :: 0 <= j < k < |stack| ==> stack[j].token != stack[k].token
    ensures (forall j :: 0 <= j < |stack| ==> stack[j].token != token) ==> Detach(rule, stack, Some(token)) == stack
    ensures forall i :: 0 <= i < |stack| && stack[i].token == token ==>
              Detach(rule, stack, Some(token)) == if rule.Unwinding? || i == |stack| - 1 then stack[..i] else stack
  {
    forall i | 0 <= i < |stack| && stack[i].token == token
      ensures Holds(stack, token) && PopDownTo(stack, token) == stack[..i]
    {
      PopsDownTo(stack, i);
    }
  }

  lemma {:induction false} PopsDownTo(stack: seq<Frame>, i: nat)
    requires i < |stack| && forall k :: i < k < |stack| ==> stack[k].token != stack[i].token
    ensures PopDownTo(stack, stack[i].token) == stack[..i]
  {
    var n := |stack| - 1;
    if i < n {
      assert stack[n].token != stack[i].token;
      PopsDownTo(stack[..n], i);
      assert stack[..n][..i] == stack[..i];
    }
  }

  // ---------- one hook ----------

  datatype Kind = Incoming(remote: Span) | Outgoing

  datatype Hook = Hook(remoteScope: Option<nat>, scope: Option<nat>, span: Option<Span>)

  const NEW_HOOK := Hook(None, None, None)

  function PreHook(kind: Kind, own: Span, th: Thread): Hook {
    match kind
    case Incoming(_) => Hook(Some(th.next), Some(th.next + 1), Some(own))
    case Outgoing => Hook(None, Some(th.next), Some(own))
  }

  function Pre(p: PropagationType, kind: Kind, own: Span, th: Thread): Thread {
    var th1 := if kind.Incoming? then Attach(th, kind.remote) else th;
    var th2 := Attach(th1, own);
    th2.(metadata := Inject(p, Current(th2.stack), th2.metadata))
  }

  function Post(p: PropagationType, rule: DetachRule, hook: Hook, th: Thread): Thread {
    var stack := Detach(rule, th.stack, hook.scope);
    Thread(Detach(rule, stack, hook.remoteScope), th.next, Inject(p, Current(stack), th.metadata))
  }

  /** Destruction without post-processing. */
  function Destroyed(rule: DetachRule, hook: Hook, th: Thread): Thread {
    th.(stack := Detach(rule, Detach(rule, th.stack, hook.scope), hook.remoteScope))
  }

  class ThreadState {
    var stack: seq<Frame>
    var next: nat
    var metadata: Metadata

    function Now(): Thread reads this {
      Thread(stack, next, metadata)
    }

    constructor ()
      ensures Now() == Thread([], 0, map[])
    {
      stack, next, metadata := [], 0, map[];
    }

    method WithActiveSpan(span: Span) returns (token: nat)
      modifies this
      ensures token == old(next) && Now() == Attach(old(Now()), span)
    {
      token := next;
      stack := stack + [Frame(token, span)];
      next := next + 1;
    }

    /** Detaches by popping, as far as the library's rule lets it. */
    method DetachToken(rule: DetachRule, token: Option<nat>)
      modifies this`stack
      ensures stack == Detach(rule, old(stack), token)
    {
      if token.None? || !(exists i :: 0 <= i < |stack| && stack[i].token == token.value) {
        return;
      }
      if rule.TopOnly? && stack[|stack| - 1].token != token.value {
        return;
      }
      while stack[|stack| - 1].token != token.value
        invariant Holds(stack, token.value)
        invariant PopDownTo(stack, token.value) == PopDownTo(old(stack), token.value)
        decreases |stack|
      {
        stack := stack[..|stack| - 1];
      }
      stack := stack[..|stack| - 1];
    }

    method InjectCurrent(p: PropagationType)
      modifies this`metadata
      ensures metadata == Inject(p, Current(stack), old(metadata))
    {
      var span := if stack == [] then NO_SPAN else stack[|stack| - 1].span;
      if !IsValid(span) {
        return;
      }
      var headers := Headers(p, span);
      var i := 0;
      while i < |headers|
        invariant 0 <= i <= |headers|
        invariant SetAll(metadata, headers[i..]) == SetAll(old(metadata), headers)
      {
        var carrier := new MSEContextCarrier(metadata);
        carrier.Set(headers[i].0, headers[i].1);
        metadata := carrier.metadata;
        i := i + 1;
      }
    }
  }

  class TracingRequestHook {
    const propagation: PropagationType
    const rule: DetachRule
    var remoteScope: Option<nat>
    var scope: Option<nat>
    var span: Option<Span>

    function Now(): Hook reads this {
      Hook(remoteScope, scope, span)
    }

    constructor (propagation: PropagationType, rule: DetachRule)
      ensures Now() == NEW_HOOK && this.propagation == propagation && this.rule == rule
    {
      this.propagation, this.rule := propagation, rule;
      remoteScope, scope, span := None, None, None;
    }

    method PreProcess(kind: Kind, own: Span, th: ThreadState)
      modifies this, th
      ensures th.Now() == Pre(propagation, kind, own, old(th.Now()))
      ensures old(Now()) == NEW_HOOK ==> Now() == PreHook(kind, own, old(th.Now()))
    {
      if kind.Incoming? {
        var remote := th.WithActiveSpan(kind.remote);
        remoteScope := Some(remote);
      }
      span := Some(own);
      var token := th.WithActiveSpan(own);
      scope := Some(token);
      th.InjectCurrent(propagation);
    }

    method PostProcess(th: ThreadState)
      modifies this, th
      ensures th.Now() == Post(propagation, rule, old(Now()), old(th.Now()))
      ensures Now() == NEW_HOOK
    {
      th.DetachToken(rule, scope);
      scope := None;
      span := None;
      th.InjectCurrent(propagation);
      th.DetachToken(rule, remoteScope);
      remoteScope := None;
    }

    /** The destructor: span, scope, remote scope. */
    method Destroy(th: ThreadState)
      modifies this, th
      ensures th.Now() == Destroyed(rule, old(Now()), old(th.Now()))
      ensures Now() == NEW_HOOK
    {
      span := None;
      th.DetachToken(rule, scope);
      scope := None;
      th.DetachToken(rule, remoteScope);
      remoteScope := None;
    }
  }

  // ---------- trees of requests ----------

  /** A request and what its own code does: end, raise, or issue a nested request whose exception it may catch. */
  datatype Request = Request(kind: Kind, own: Span, body: Body)

  datatype Body = End | Raise | Nested(child: Request, caught: bool, rest: Body)

  /** `seen` are the headers at every point where a request's own code runs, with that request's span. */
  datatype Outcome = Outcome(th: Thread, threw: bool, seen: seq<(Span, Metadata)>)

  function Run(p: PropagationType, rule: DetachRule, req: Request, th: Thread): Outcome
    decreases req
  {
    var hook := PreHook(req.kind, req.own, th);
    var r := RunBody(p, rule, req.own, req.body, Pre(p, req.kind, req.own, th));
    r.(th := if r.threw then Destroyed(rule, hook, r.th) else Post(p, rule, hook, r.th))
  }

  function RunBody(p: PropagationType, rule: DetachRule, own: Span, body: Body, th: Thread): Outcome
    decreases body
  {
    var here := [(own, th.metadata)];
    match body
    case End => Outcome(th, false, here)
    case Raise => Outcome(th, true, here)
    case Nested(child, caught, rest) =>
      var r := Run(p, rule, child, th);
      if r.threw && !caught then r.(seen := here + r.seen)
      else
        var q := RunBody(p, rule, own, rest, r.th);
        q.(seen := here + r.seen + q.seen)
  }

  /** Runs a request with real hooks on a real thread state. */
  method Process(p: PropagationType, rule: DetachRule, req: Request, th: ThreadState) returns (threw: bool)
    modifies th
    ensures th.Now() == Run(p, rule, req, old(th.Now())).th
    ensures threw == Run(p, rule, req, old(th.Now())).threw
    decreases req
  {
    var hook := new TracingRequestHook(p, rule);
    hook.PreProcess(req.kind, req.own, th);
    threw := ProcessBody(p, rule, req.own, req.body, th);
    if !threw {
      hook.PostProcess(th);
    }
    hook.Destroy(th);
  }

  method ProcessBody(p: PropagationType, rule: DetachRule, own: Span, body: Body, th: ThreadState) returns (threw: bool)
    modifies th
    ensures th.Now() == RunBody(p, rule, own, body, old(th.Now())).th
    ensures threw == RunBody(p, rule, own, body, old(th.Now())).threw
    decreases body
  {
    match body {
      case End => threw := false;
      case Raise => threw := true;
      case Nested(child, caught, rest) =>
        threw := Process(p, rule, child, th);
        if !threw || caught {
          threw := ProcessBody(p, rule, own, rest, th);
        }
    }
  }

  // ---------- balance ----------

  /** Detaching the context on top pops exactly it, by either rule. */
  lemma DetachTop(rule: DetachRule, stack: seq<Frame>, f: Frame)
    ensures Detach(rule, stack + [f], Some(f.token)) == stack
  {
    assert (stack + [f])[|stack|] == f;
    assert (stack + [f])[..|stack|] == stack;
  }

  /** After the body, whichever way it ended, the hook's scopes are on top and come off in order. */
  lemma ScopesComeOff(p: PropagationType, rule: DetachRule, kind: Kind, own: Span, th: Thread, th': Thread)
    requires th'.stack == Pre(p, kind, own, th).stack
    ensures Post(p, rule, PreHook(kind, own, th), th').stack == th.stack
    ensures Destroyed(rule, PreHook(kind, own, th), th').stack == th.stack
    ensures Post(p, rule, PreHook(kind, own, th), th').metadata
            == Inject(p, if kind.Incoming? then kind.remote else Current(th.stack), th'.metadata)
  {
    match kind {
      case Incoming(remote) =>
        var below := th.stack + [Frame(th.next, remote)];
        DetachTop(rule, below, Frame(th.next + 1, own));
        DetachTop(rule, th.stack, Frame(th.next, remote));
      case Outgoing =>
        DetachTop(rule, th.stack, Frame(th.next, own));
    }
  }

  /** Scope-stack balance: completing a request of any tree leaves the context stack exactly as before. */
  lemma {:induction false} Balance(p: PropagationType, rule: DetachRule, req: Request, th: Thread)
    ensures Run(p, rule, req, th).th.stack == th.stack
    decreases req
  {
    var th1 := Pre(p, req.kind, req.own, th);
    BodyBalance(p, rule, req.own, req.body, th1);
    ScopesComeOff(p, rule, req.kind, req.own, th, RunBody(p, rule, req.own, req.body, th1).th);
  }

  lemma {:induction false} BodyBalance(p: PropagationType, rule: DetachRule, own: Span, body: Body, th: Thread)
    ensures RunBody(p, rule, own, body, th).th.stack == th.stack
    decreases body
  {
    if body.Nested? {
      Balance(p, rule, body.child, th);
      BodyBalance(p, rule, own, body.rest, Run(p, rule, body.child, th).th);
    }
  }

  // ---------- why the declaration order matters ----------

  /** The members destroyed the other way round: the remote scope before the scope. */
  function DestroyedInReverse(rule: DetachRule, hook: Hook, th: Thread): Thread {
    th.(stack := Detach(rule, Detach(rule, th.stack, hook.remoteScope), hook.scope))
  }

  /**
   With the members declared the other way round, a hook of an incoming request destroyed after an exception leaves the
   remote context behind if only the top can be detached; if detaching unwinds, it leaves nothing behind.
   */
  lemma ReverseOrderLeaks(p: PropagationType, rule: DetachRule, remote: Span, own: Span, th: Thread)
    requires forall i :: 0 <= i < |th.stack| ==> th.stack[i].token < th.next
    ensures var kind := Incoming(remote);
            DestroyedInReverse(rule, PreHook(kind, own, th), Pre(p, kind, own, th)).stack
            == if rule.TopOnly? then th.stack + [Frame(th.next, remote)] else th.stack
  {
    var below := th.stack + [Frame(th.next, remote)];
    var all := below + [Frame(th.next + 1, own)];
    assert Pre(p, Incoming(remote), own, th).stack == all;
    assert all[|th.stack|] == Frame(th.next, remote) && all[|th.stack| + 1] == Frame(th.next + 1, own);
    assert all[..|all| - 1] == below && below[..|below| - 1] == th.stack;
    assert Holds(all, th.next);
    assert PopDownTo(all, th.next) == PopDownTo(below, th.next) == th.stack;
    if rule.TopOnly? {
      DetachTop(rule, below, Frame(th.next + 1, own));
    }
  }

  // ---------- propagation headers ----------

  predicate SpansValid(req: Request)
    decreases req
  {
    IsValid(req.own) && (req.kind.Incoming? ==> IsValid(req.kind.remote)) && BodySpansValid(req.body)
  }

  predicate BodySpansValid(body: Body)
    decreases body
  {
    body.Nested? ==> SpansValid(body.child) && BodySpansValid(body.rest)
  }

  /** Whether an exception leaves this code. */
  predicate Raises(body: Body) {
    match body
    case End => false
    case Raise => true
    case Nested(child, caught, rest) => (Raises(child.body) && !caught) || Raises(rest)
  }

  /**
   The span that the header encodes after a request: the remote span of an incoming one or the enclosing span of an
   outgoing one, but when the request raises, post-processing is skipped and the header stays as its code left it.
   */
  function SpanAfter(req: Request, enclosing: Span): Span
    decreases req
  {
    if Raises(req.body) then SpanAtEnd(req.own, req.body, req.own)
    else if req.kind.Incoming? then req.kind.remote
    else enclosing
  }

  /** The span that the header encodes where this code ends, with `header` encoded where it begins. */
  function SpanAtEnd(own: Span, body: Body, header: Span): Span
    decreases body
  {
    match body
    case End => header
    case Raise => header
    case Nested(child, caught, rest) =>
      if Raises(child.body) && !caught then SpanAfter(child, own) else SpanAtEnd(own, rest, SpanAfter(child, own))
  }

  /** The header shows each request's own span at every point of its code; a condition on the tree alone. */
  predicate Coherent(p: PropagationType, own: Span, body: Body, header: Span)
    decreases body
  {
    && SameIdentity(p, header, own)
    && (body.Nested? ==>
          && Coherent(p, body.child.own, body.child.body, body.child.own)
          && ((Raises(body.child.body) && !body.caught) || Coherent(p, own, body.rest, SpanAfter(body.child, own))))
  }

  /** At each of these points the header encodes the span of the request whose code runs there. */
  ghost predicate AllAgree(p: PropagationType, seen: seq<(Span, Metadata)>) {
    forall o :: o in seen ==> Encodes(p, o.0, o.1)
  }

  lemma AgreeConcat(p: PropagationType, a: seq<(Span, Metadata)>, b: seq<(Span, Metadata)>)
    ensures AllAgree(p, a + b) <==> AllAgree(p, a) && AllAgree(p, b)
  {
    assert forall o :: o in a + b <==> o in a || o in b;
  }

  /**
   Header agreement, exactly: in every tree with valid spans, throwing or not, the header encodes the running request's
   span at every point of its own code if and only if the tree is coherent. Afterwards it encodes `SpanAfter`.
   */
  lemma {:induction false} HeaderAgreement(p: PropagationType, rule: DetachRule, req: Request, th: Thread)
    requires SpansValid(req)
    ensures Run(p, rule, req, th).threw == Raises(req.body)
    ensures AllAgree(p, Run(p, rule, req, th).seen) <==> Coherent(p, req.own, req.body, req.own)
    ensures IsValid(SpanAfter(req, Current(th.stack))) ==>
              Encodes(p, SpanAfter(req, Current(th.stack)), Run(p, rule, req, th).th.metadata)
    ensures IsValid(Current(th.stack)) ==> IsValid(SpanAfter(req, Current(th.stack)))
    decreases req
  {
    var th1 := Pre(p, req.kind, req.own, th);
    InjectEncodes(p, req.own, th.metadata);
    BodyHeaderAgreement(p, rule, req.own, req.body, req.own, th1);
    var r := RunBody(p, rule, req.own, req.body, th1);
    BodyBalance(p, rule, req.own, req.body, th1);
    ScopesComeOff(p, rule, req.kind, req.own, th, r.th);
    if !r.threw && IsValid(SpanAfter(req, Current(th.stack))) {
      InjectEncodes(p, SpanAfter(req, Current(th.stack)), r.th.metadata);
    }
  }

  lemma {:induction false} BodyHeaderAgreement(
    p: PropagationType, rule: DetachRule, own: Span, body: Body, header: Span, th: Thread)
    requires BodySpansValid(body) && IsValid(own) && IsValid(header)
    requires Current(th.stack) == own && Encodes(p, header, th.metadata)
    ensures var r := RunBody(p, rule, own, body, th);
            && r.threw == Raises(body)
            && (AllAgree(p, r.seen) <==> Coherent(p, own, body, header))
            && IsValid(SpanAtEnd(own, body, header)) && Encodes(p, SpanAtEnd(own, body, header), r.th.metadata)
    decreases body
  {
    assert AllAgree(p, [(own, th.metadata)]) <==> SameIdentity(p, header, own) by {
      EncodesIsInjective(p, header, own, th.metadata);
      assert [(own, th.metadata)][0] in [(own, th.metadata)];
    }
    if body.Nested? {
      var child := body.child;
      var r := Run(p, rule, child, th);
      HeaderAgreement(p, rule, child, th);
      if !(r.threw && !body.caught) {
        assert Current(r.th.stack) == own by {
          Balance(p, rule, child, th);
        }
        BodyHeaderAgreement(p, rule, own, body.rest, SpanAfter(child, own), r.th);
      }
      NestedAgreement(p, rule, own, body, th);
    }
  }

  /** Agreement over a nested request and the rest is agreement over the parts that are reached. */
  lemma NestedAgreement(p: PropagationType, rule: DetachRule, own: Span, body: Body, th: Thread)
    requires body.Nested?
    ensures var r := Run(p, rule, body.child, th);
            AllAgree(p, RunBody(p, rule, own, body, th).seen)
            <==> && AllAgree(p, [(own, th.metadata)])
                 && AllAgree(p, r.seen)
                 && ((r.threw && !body.caught) || AllAgree(p, RunBody(p, rule, own, body.rest, r.th).seen))
  {
    var here, r := [(own, th.metadata)], Run(p, rule, body.child, th);
    AgreeConcat(p, here, r.seen);
    if !r.threw || body.caught {
      AgreeConcat(p, here + r.seen, RunBody(p, rule, own, body.rest, r.th).seen);
    }
  }

  predicate NonThrowing(body: Body) {
    match body
    case End => true
    case Raise => false
    case Nested(child, _, rest) => NonThrowing(child.body) && NonThrowing(rest)
  }

  /** Every incoming request nested in another request names that request's span as its remote parent. */
  predicate ParentsNamed(p: PropagationType, own: Span, body: Body)
    decreases body
  {
    body.Nested? ==>
      && (body.child.kind.Incoming? ==> SameIdentity(p, body.child.kind.remote, own))
      && ParentsNamed(p, body.child.own, body.child.body)
      && ParentsNamed(p, own, body.rest)
  }

  /** Without exceptions, coherence says no more than that nested incoming requests name their enclosing span. */
  lemma {:induction false} CoherentWithoutExceptions(p: PropagationType, own: Span, body: Body, header: Span)
    requires NonThrowing(body)
    ensures !Raises(body)
    ensures Coherent(p, own, body, header) <==> SameIdentity(p, header, own) && ParentsNamed(p, own, body)
    decreases body
  {
    if body.Nested? {
      CoherentWithoutExceptions(p, body.child.own, body.child.body, body.child.own);
      CoherentWithoutExceptions(p, own, body.rest, SpanAfter(body.child, own));
    }
  }

  /** Header agreement in a tree without exceptions. */
  lemma NonThrowingHeaderAgreement(p: PropagationType, rule: DetachRule, req: Request, th: Thread)
    requires SpansValid(req) && NonThrowing(req.body)
    ensures AllAgree(p, Run(p, rule, req, th).seen) <==> ParentsNamed(p, req.own, req.body)
    ensures req.kind.Incoming? ==> Encodes(p, req.kind.remote, Run(p, rule, req, th).th.metadata)
    ensures req.kind.Outgoing? && IsValid(Current(th.stack)) ==>
              Encodes(p, Current(th.stack), Run(p, rule, req, th).th.metadata)
  {
    HeaderAgreement(p, rule, req, th);
    CoherentWithoutExceptions(p, req.own, req.body, req.own);
  }

  // ---------- the exact condition when every request has a span of its own ----------

  /** No request's span looks like that of a request around it; a started span always gets a new id. */
  predicate OwnSpans(p: PropagationType, above: set<Span>, body: Body)
    decreases body
  {
    body.Nested? ==>
      && (forall s :: s in above ==> !SameIdentity(p, body.child.own, s))
      && OwnSpans(p, above + {body.child.own}, body.child.body)
      && OwnSpans(p, above, body.rest)
  }

  /** No request that is reached and raises has its exception caught by the code that issued it. */
  predicate CatchesNothing(body: Body)
    decreases body
  {
    body.Nested? ==>
      && CatchesNothing(body.child.body)
      && (if Raises(body.child.body) then !body.caught else CatchesNothing(body.rest))
  }

  /** Every incoming request that is reached and returns names the span of the request around it as its parent. */
  predicate ReturnsNamed(p: PropagationType, own: Span, body: Body)
    decreases body
  {
    body.Nested? ==>
      && ReturnsNamed(p, body.child.own, body.child.body)
      && (!Raises(body.child.body) && body.child.kind.Incoming? ==> SameIdentity(p, body.child.kind.remote, own))
      && ((Raises(body.child.body) && !body.caught) || ReturnsNamed(p, own, body.rest))
  }

  /** Coherent code that raises leaves a header that is not that of any request around it. */
  lemma {:induction false} RaisedHeaderIsForeign(
    p: PropagationType, above: set<Span>, own: Span, body: Body, header: Span)
    requires Raises(body) && Coherent(p, own, body, header)
    requires OwnSpans(p, above + {own}, body) && forall s :: s in above ==> !SameIdentity(p, own, s)
    ensures forall s :: s in above ==> !SameIdentity(p, SpanAtEnd(own, body, header), s)
    decreases body
  {
    if body.Nested? {
      var child := body.child;
      if Raises(child.body) && !body.caught {
        RaisedHeaderIsForeign(p, above + {own}, child.own, child.body, child.own);
      } else {
        RaisedHeaderIsForeign(p, above, own, body.rest, SpanAfter(child, own));
      }
    }
  }

  /** With own spans, coherence is a matter of catching nothing and naming the parents of what returns. */
  lemma {:induction false} CoherentExactly(p: PropagationType, above: set<Span>, own: Span, body: Body, header: Span)
    requires own in above && OwnSpans(p, above, body)
    ensures Coherent(p, own, body, header)
            <==> SameIdentity(p, header, own) && CatchesNothing(body) && ReturnsNamed(p, own, body)
    decreases body
  {
    if body.Nested? {
      var child := body.child;
      CoherentExactly(p, above + {child.own}, child.own, child.body, child.own);
      CoherentExactly(p, above, own, body.rest, SpanAfter(child, own));
      if Raises(child.body) && Coherent(p, child.own, child.body, child.own) {
        RaisedHeaderIsForeign(p, above, child.own, child.body, child.own);
      }
    }
  }

  /**
   Header agreement, exactly and in closed form: in every tree in which each request has a span of its own, the header
   encodes the running request's span at every point of its own code if and only if no exception of a nested request
   is caught and every nested incoming request that returns names the enclosing span.
   */
  lemma HeaderAgreementExactly(p: PropagationType, rule: DetachRule, req: Request, th: Thread)
    requires SpansValid(req) && OwnSpans(p, {req.own}, req.body)
    ensures AllAgree(p, Run(p, rule, req, th).seen)
            <==> CatchesNothing(req.body) && ReturnsNamed(p, req.own, req.body)
  {
    HeaderAgreement(p, rule, req, th);
    CoherentExactly(p, {req.own}, req.own, req.body, req.own);
  }

  /**
   A caught exception of a nested request, however deep it was raised: the enclosing code goes on with the header that
   the failed request left, which is wrong for it unless both spans look the same. With own spans it always is.
   */
  lemma CaughtExceptionLeavesHeader(
    p: PropagationType, rule: DetachRule, kind: Kind, own: Span, child: Request, rest: Body, th: Thread)
    requires Raises(child.body) && SpansValid(Request(kind, own, Nested(child, true, rest)))
    ensures var seen := Run(p, rule, Request(kind, own, Nested(child, true, rest)), th).seen;
            && (AllAgree(p, seen) ==> SameIdentity(p, SpanAtEnd(child.own, child.body, child.own), own))
            && (OwnSpans(p, {own}, Nested(child, true, rest)) ==> !AllAgree(p, seen))
            && (child.body.Raise? && rest.End? ==> (AllAgree(p, seen) <==> SameIdentity(p, child.own, own)))
  {
    var body := Nested(child, true, rest);
    HeaderAgreement(p, rule, Request(kind, own, body), th);
    var left := SpanAtEnd(child.own, child.body, child.own);
    assert Coherent(p, own, body, own)
           <==> Coherent(p, child.own, child.body, child.own) && Coherent(p, own, rest, left);
    assert Coherent(p, own, rest, left) ==> SameIdentity(p, left, own);
    if OwnSpans(p, {own}, body) {
      HeaderAgreementExactly(p, rule, Request(kind, own, body), th);
      assert !CatchesNothing(body);
    }
  }
}
