/** The coordinator and its operations as shared objects. */
module TokenRefreshMachine {
  import opened Common
  import opened TokenRefresh

  class TokenRefreshOperation {
    var completion: Option<Answer>

    constructor ()
      ensures completion == None
    {
      completion := None;
    }

    /** The first answer stays. */
    method CompleteWith(answer: Answer)
      modifies this
      ensures completion == if old(completion).Some? then old(completion) else Some(answer)
    {
      if completion.None? { completion := Some(answer); }
    }
  }

  datatype TokenAction =
    | UseCached(value: string)
    | JoinRefresh(operation: TokenRefreshOperation)
    | StartRefresh(operation: TokenRefreshOperation)

  class TokenRefreshCoordinator {
    var cached: Option<TokenRefresh.Cached>
    var inFlight: TokenRefreshOperation?
    /** Every operation created so far; its index is its number in the state machine. */
    ghost var operations: seq<TokenRefreshOperation>

    constructor ()
      ensures Valid() && fresh(this) && Abstract([]) == Initial
    {
      cached, inFlight, operations := None, null, [];
    }

    ghost predicate Valid()
      reads this
    {
      && (forall i, j :: 0 <= i < j < |operations| ==> operations[i] != operations[j])
      && (inFlight != null ==> inFlight in operations)
    }

    ghost function Number(operation: TokenRefreshOperation): (n: nat)
      requires operation in operations
      reads this
      ensures n < |operations| && operations[n] == operation
    {
      var n :| 0 <= n < |operations| && operations[n] == operation;
      n
    }

    /** The state this stands for, next to the answers still to be published. */
    ghost function Abstract(publishing: seq<Publication>): State
      requires Valid()
      reads this, operations
    {
      State(cached, if inFlight == null then None else Some(Number(inFlight)),
            seq(|operations|, i requires 0 <= i < |operations| reads this, operations => operations[i].completion), publishing)
    }

    method Acquire(now: int) returns (r: TokenAction)
      requires Valid()
      modifies this
      ensures Valid() && forall p :: Abstract(p) == TokenRefresh.Acquire(old(Abstract(p)), now).0
      ensures match TokenRefresh.Acquire(old(Abstract([])), now).1
              case Serve(value) => r == UseCached(value) && operations == old(operations)
              case Join(n) => r == JoinRefresh(operations[n]) && operations == old(operations)
              case Start(n) => r.StartRefresh? && fresh(r.operation) && operations == old(operations) + [r.operation]
    {
      if cached.Some? && now < cached.value.expiresAt { return UseCached(cached.value.value); }
      cached := None;
      if inFlight != null { return JoinRefresh(inFlight); }
      var operation := new TokenRefreshOperation();
      operations := operations + [operation];
      inFlight := operation;
      assert operations[|operations| - 1] == operation;
      r := StartRefresh(operation);
    }

    /** The critical section: decides under the lock what the waiters will be told. */
    method CompleteLocked(operation: TokenRefreshOperation, result: WorkerResult) returns (answer: Answer)
      requires Valid() && operation in operations
      modifies this
      ensures Valid() && operations == old(operations)
      ensures forall p :: Abstract(p + [Publication(Number(operation), answer)])
                          == TokenRefresh.Complete(old(Abstract(p)), Number(operation), result)
    {
      if inFlight != operation { return Failed(RefreshLost); }
      inFlight := null;
      if result.Ok? {
        cached := result.validated.cached;
        answer := Token(result.validated.value);
      } else {
        answer := Failed(result.failure);
      }
    }

    method Complete(operation: TokenRefreshOperation, result: WorkerResult)
      requires Valid() && operation in operations
      modifies this, operation
      ensures Valid() && operations == old(operations)
      ensures Abstract([]) == Publish(TokenRefresh.Complete(old(Abstract([])), Number(operation), result), 0)
    {
      ghost var n := Number(operation);
      ghost var before := Abstract([]);
      var answer := CompleteLocked(operation, result);
      ghost var locked := TokenRefresh.Complete(before, n, result);
      assert [] + [Publication(n, answer)] == [Publication(n, answer)];
      assert Abstract([Publication(n, answer)]) == locked;
      operation.CompleteWith(answer);
    }
  }
}
