/** The nonce pool: a FIFO queue of `Replay-Nonce` tokens. `getNonce` serves the oldest
    pooled token, or asks the server with a HEAD request when the pool is empty or a fresh
    token is demanded; `addNonce` appends; `post` harvests the token a response carries.
    The network enters as the outcome of each request. */
module Nonces {
  import opened Wrappers

  /** The message `getNonce` fails with when the HEAD response carries no token. */
  const NonceHeaderMissing := "Nonce header not supplied!"

  /** Failures a request can report: the transport's own error, a protocol violation
      (the missing header), or a failure of the JWS signer. */
  datatype Error = TransportError(msg: string) | ProtocolError(msg: string) | SigningError(msg: string)

  /** What the HEAD request `getNonce` sends came back with: the client's error, or a
      response whose `Replay-Nonce` header has the given value (empty when absent). */
  datatype Probe = ProbeFailed(err: string) | ProbeAnswered(replayNonce: string)

  /** An HTTP response, reduced to its `Replay-Nonce` header (empty when absent). */
  datatype Response = Response(replayNonce: string)

  /** What `client.Post` returned: a response or nil, and an error or nil. */
  datatype Exchange = Exchange(resp: Option<Response>, err: Option<string>)

  /** The token a fresh HEAD request yields, or the error it fails with. */
  function ProbeNonce(probe: Probe): (r: Result<string, Error>)
    ensures r.Success? <==> probe.ProbeAnswered? && probe.replayNonce != ""
    ensures r.Success? ==> r.value == probe.replayNonce && r.value != ""
    ensures probe.ProbeFailed? ==> r == Failure(TransportError(probe.err))
    ensures probe.ProbeAnswered? && probe.replayNonce == "" ==> r == Failure(ProtocolError(NonceHeaderMissing))
  {
    match probe
    case ProbeFailed(err) => Failure(TransportError(err))
    case ProbeAnswered(nonce) =>
      if nonce != "" then Success(nonce) else Failure(ProtocolError(NonceHeaderMissing))
  }

  /** `getNonce` takes its token from the pool, without any request, exactly when the
      pool is not empty and no fresh token is demanded. */
  predicate FromPool(pool: seq<string>, alwaysNew: bool)
  {
    |pool| > 0 && !alwaysNew
  }

  /** The result of one `getNonce` and the pool it leaves behind. */
  datatype Acquired = Acquired(result: Result<string, Error>, pool: seq<string>)

  /** `getNonce`: pop the oldest pooled token, or fall back to the HEAD request, which
      leaves the pool as it was. */
  function Acquire(pool: seq<string>, alwaysNew: bool, probe: Probe): (a: Acquired)
    ensures FromPool(pool, alwaysNew) ==> a.result == Success(pool[0]) && [pool[0]] + a.pool == pool
    ensures !FromPool(pool, alwaysNew) ==> a.result == ProbeNonce(probe) && a.pool == pool
  {
    if |pool| == 0 || alwaysNew then Acquired(ProbeNonce(probe), pool)
    else Acquired(Success(pool[0]), pool[1..])
  }

  /** The tokens `post` hands to `addNonce`: the response's `Replay-Nonce` header when
      there is a response and the header is not empty. */
  function Harvested(ex: Exchange): (ts: seq<string>)
    ensures |ts| <= 1
    ensures ts != [] <==> ex.resp.Some? && ex.resp.value.replayNonce != ""
    ensures ts != [] ==> ts[0] == ex.resp.value.replayNonce
  {
    if ex.resp.Some? && ex.resp.value.replayNonce != "" then [ex.resp.value.replayNonce] else []
  }

  /** What `post` returns: the transport error when there is one, whether or not a token
      was harvested, and the response otherwise. */
  function PostResult(ex: Exchange): (r: Result<Option<Response>, Error>)
    ensures r.Failure? <==> ex.err.Some?
    ensures r.Failure? ==> r.error == TransportError(ex.err.value)
    ensures r.Success? ==> r.value == ex.resp
  {
    if ex.err.Some? then Failure(TransportError(ex.err.value)) else Success(ex.resp)
  }

  // ---------------------------------------------------------------- traces

  /** One operation on the pool, as the dispatched calls issue them one after another. */
  datatype NonceOp = AddNonce(token: string) | GetNonce(alwaysNew: bool, probe: Probe) | Post(exchange: Exchange)

  /** The tokens an operation puts into the pool. */
  function Supplied(op: NonceOp): seq<string>
  {
    match op
    case AddNonce(t) => [t]
    case GetNonce(_, _) => []
    case Post(ex) => Harvested(ex)
  }

  /** The tokens an operation takes out of the pool and returns: the result of a
      `getNonce` served from the pool, nothing otherwise. */
  function Served(pool: seq<string>, op: NonceOp): seq<string>
  {
    match op
    case GetNonce(alwaysNew, probe) =>
      if FromPool(pool, alwaysNew) then [Acquire(pool, alwaysNew, probe).result.value] else []
    case _ => []
  }

  /** The pool after one operation. */
  function Step(pool: seq<string>, op: NonceOp): seq<string>
  {
    match op
    case AddNonce(t) => pool + [t]
    case GetNonce(alwaysNew, probe) => Acquire(pool, alwaysNew, probe).pool
    case Post(ex) => pool + Harvested(ex)
  }

  /** The pool after a whole trace. */
  function PoolAfter(pool: seq<string>, ops: seq<NonceOp>): seq<string>
    decreases |ops|
  {
    if ops == [] then pool else PoolAfter(Step(pool, ops[0]), ops[1..])
  }

  /** Every token a trace takes out of the pool, in the order it was handed out. */
  function ServedAll(pool: seq<string>, ops: seq<NonceOp>): seq<string>
    decreases |ops|
  {
    if ops == [] then [] else Served(pool, ops[0]) + ServedAll(Step(pool, ops[0]), ops[1..])
  }

  /** Every token a trace puts into the pool, in the order it was added. */
  function SuppliedAll(ops: seq<NonceOp>): seq<string>
    decreases |ops|
  {
    if ops == [] then [] else Supplied(ops[0]) + SuppliedAll(ops[1..])
  }

  /** One operation keeps the queue discipline: what it serves, followed by the pool it
      leaves, is the old pool followed by what it supplies. */
  lemma StepFifo(pool: seq<string>, op: NonceOp)
    ensures Served(pool, op) + Step(pool, op) == pool + Supplied(op)
  {
    match op
    case AddNonce(t) =>
    case GetNonce(alwaysNew, probe) =>
      var a := Acquire(pool, alwaysNew, probe);
      if FromPool(pool, alwaysNew) {
        assert Served(pool, op) == [pool[0]];
      } else {
        assert Served(pool, op) == [] && Supplied(op) == [];
      }
    case Post(ex) =>
  }

  /** Concatenation is associative; stated once so that the regrouping steps of `FifoTrace`
      stay cheap for the solver. */
  lemma Associative(a: seq<string>, b: seq<string>, c: seq<string>)
    ensures (a + b) + c == a + (b + c)
  {
  }

  /** The pool is a FIFO queue: over any trace, the tokens handed out from the pool
      followed by the tokens still pooled are exactly the initial tokens followed by the
      tokens added, in the same order. */
  lemma {:induction false} FifoTrace(pool: seq<string>, ops: seq<NonceOp>)
    ensures ServedAll(pool, ops) + PoolAfter(pool, ops) == pool + SuppliedAll(ops)
    decreases |ops|
  {
    if ops != [] {
      var op, rest := ops[0], ops[1..];
      var next := Step(pool, op);
      var served, restServed, left := Served(pool, op), ServedAll(next, rest), PoolAfter(next, rest);
      assert ServedAll(pool, ops) == served + restServed;
      assert PoolAfter(pool, ops) == left;
      assert SuppliedAll(ops) == Supplied(op) + SuppliedAll(rest);
      FifoTrace(next, rest);
      StepFifo(pool, op);
      calc {
        (served + restServed) + left;
      == { Associative(served, restServed, left); }
        served + (restServed + left);
        served + (next + SuppliedAll(rest));
      == { Associative(served, next, SuppliedAll(rest)); }
        (served + next) + SuppliedAll(rest);
        (pool + Supplied(op)) + SuppliedAll(rest);
      == { Associative(pool, Supplied(op), SuppliedAll(rest)); }
        pool + (Supplied(op) + SuppliedAll(rest));
      }
    }
  }

  /** No element of `s` occurs twice. */
  predicate NoDuplicates(s: seq<string>)
  {
    forall i, j :: 0 <= i < j < |s| ==> s[i] != s[j]
  }

  /** The parts of a sequence without duplicates have none, and share no element. */
  lemma SplitNoDuplicates(a: seq<string>, b: seq<string>)
    requires NoDuplicates(a + b)
    ensures NoDuplicates(a)
    ensures NoDuplicates(b)
    ensures forall t :: t in a ==> t !in b
  {
    var all := a + b;
    forall i, j | 0 <= i < j < |a|
      ensures a[i] != a[j]
    {
      assert all[i] == a[i] && all[j] == a[j];
    }
    forall i, j | 0 <= i < j < |b|
      ensures b[i] != b[j]
    {
      assert all[|a| + i] == b[i] && all[|a| + j] == b[j];
    }
    forall i, j | 0 <= i < |a| && 0 <= j < |b|
      ensures a[i] != b[j]
    {
      assert all[i] == a[i] && all[|a| + j] == b[j];
    }
  }

  /** No token is handed out twice unless it was put in twice: when the initial pool and
      the added tokens are all distinct, so are the tokens served from the pool, and none of
      them is still pooled. */
  lemma NoTokenServedTwice(pool: seq<string>, ops: seq<NonceOp>)
    requires NoDuplicates(pool + SuppliedAll(ops))
    ensures NoDuplicates(ServedAll(pool, ops))
    ensures forall t :: t in ServedAll(pool, ops) ==> t !in PoolAfter(pool, ops)
  {
    FifoTrace(pool, ops);
    SplitNoDuplicates(ServedAll(pool, ops), PoolAfter(pool, ops));
  }
}
