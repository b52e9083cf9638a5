/**
 The row of `idempotency_keys` for one (user, method, path, key) and the four statements
 `idempotent` runs on it. The unique constraint makes the row an option. A UUID is the pair of
 the request that drew it and the number of its attempt, which is all that "fresh" means here.
 */
module IdempotencyTable {
  import opened Wrappers

  const PENDING_MS: int := 5 * 60 * 1000

  datatype Id = Id(request: nat, attempt: nat)

  datatype Response = Response(status: int, body: seq<bv8>)

  datatype Row = Row(id: Id, hash: string, createdAt: int, response: Option<Response>)

  /** What the dispatched route did: threw, or answered. */
  datatype Outcome = Threw | Responded(response: Response)

  /** What the caller of `idempotent` gets. */
  datatype Answer = Own(outcome: Outcome) | Replay(response: Response) | Conflict | Internal

  predicate NullBody(status: int) {
    status == 204 || status == 205 || status == 304
  }

  predicate Succeeded(outcome: Outcome) {
    outcome.Responded? && 200 <= outcome.response.status < 300
  }

  /** A status without a body is stored, and answered, with no bytes. */
  function Trimmed(response: Response): Response {
    if NullBody(response.status) then response.(body := []) else response
  }

  predicate Pending(row: Option<Row>) {
    row.Some? && row.value.response.None?
  }

  predicate Stored(row: Option<Row>) {
    row.Some? && row.value.response.Some?
  }

  /** INSERT ... ON CONFLICT DO NOTHING */
  function Inserted(row: Option<Row>, mine: Row): Option<Row> {
    if row.None? then Some(mine) else row
  }

  /** DELETE ... WHERE id = $1 AND response_status IS NULL */
  function Deleted(row: Option<Row>, id: Id): Option<Row> {
    if Pending(row) && row.value.id == id then None else row
  }

  /** UPDATE ... WHERE id = $1 */
  function Updated(row: Option<Row>, id: Id, response: Response): Option<Row> {
    if row.Some? && row.value.id == id then Some(row.value.(response := Some(response))) else row
  }

  /** The row after the statement that closes a dispatch. */
  function Closed(row: Option<Row>, id: Id, outcome: Outcome): Option<Row> {
    if Succeeded(outcome) then Updated(row, id, Trimmed(outcome.response)) else Deleted(row, id)
  }

  /** What the closing code answers: a success goes out as it was stored. */
  function AnswerOf(outcome: Outcome): Answer {
    Own(if Succeeded(outcome) then Responded(Trimmed(outcome.response)) else outcome)
  }

  datatype Verdict = TakeOver(id: Id) | Finish(answer: Answer)

  /** What the loser of the INSERT decides from the row it reads. */
  function VerdictOn(row: Option<Row>, now: int, hash: string): Verdict {
    if row.None? then Finish(Internal)
    else if row.value.response.None? && now - row.value.createdAt > PENDING_MS then TakeOver(row.value.id)
    else if row.value.hash != hash || row.value.response.None? then Finish(Conflict)
    else Finish(Replay(Trimmed(row.value.response.value)))
  }

  /** The whole handler when nothing else touches the row. */
  function Alone(row: Option<Row>, id: Id, now: int, hash: string, outcome: Outcome): (Option<Row>, Answer, bool) {
    if row.None? then
      var mine := Some(Row(id, hash, now, None));
      (Closed(mine, id, outcome), AnswerOf(outcome), true)
    else
      match VerdictOn(row, now, hash)
      case Finish(answer) => (row, answer, false)
      case TakeOver(_) =>
        var mine := Some(Row(id.(attempt := id.attempt + 1), hash, now, None));
        (Closed(mine, mine.value.id, outcome), AnswerOf(outcome), true)
  }

  /** The table, as the handler's statements change it. */
  class Table {
    var row: Option<Row>

    constructor ()
      ensures row == None
    {
      row := None;
    }

    method Insert(mine: Row) returns (inserted: bool)
      modifies this
      ensures row == Inserted(old(row), mine)
      ensures inserted == old(row).None?
    {
      inserted := row.None?;
      if inserted {
        row := Some(mine);
      }
    }

    method DeletePending(id: Id)
      modifies this
      ensures row == Deleted(old(row), id)
    {
      if row.Some? && row.value.id == id && row.value.response.None? {
        row := None;
      }
    }

    method Store(id: Id, response: Response)
      modifies this
      ensures row == Updated(old(row), id, response)
    {
      if row.Some? && row.value.id == id {
        row := Some(row.value.(response := Some(response)));
      }
    }

    /** `idempotent`, with the route's outcome as a parameter, undisturbed. */
    method Idempotent(request: nat, now: int, hash: string, outcome: Outcome)
      returns (answer: Answer, dispatched: bool)
      requires row.Some? ==> row.value.id.request != request
      modifies this
      ensures (row, answer, dispatched) == Alone(old(row), Id(request, 0), now, hash, outcome)
    {
      var id := Id(request, 0);
      var inserted := Insert(Row(id, hash, now, None));
      while !inserted
        invariant inserted ==> row == Some(Row(id, hash, now, None))
        invariant inserted ==> id == Id(request, if old(row).None? then 0 else 1)
        invariant inserted && old(row).Some? ==> VerdictOn(old(row), now, hash).TakeOver?
        invariant !inserted ==> row == old(row) && row.Some? && id == Id(request, 0)
        decreases !inserted
      {
        var verdict := VerdictOn(row, now, hash);
        if verdict.Finish? {
          return verdict.answer, false;
        }
        DeletePending(verdict.id);
        id := Id(request, id.attempt + 1);
        inserted := Insert(Row(id, hash, now, None));
      }
      if Succeeded(outcome) {
        Store(id, Trimmed(outcome.response));
      } else {
        DeletePending(id);
      }
      return AnswerOf(outcome), true;
    }
  }

  /** Two calls one after the other with one body: after a success the second only replays it. */
  lemma RetryReplays(row: Option<Row>, a: Id, b: Id, now: int, later: int, hash: string, first: Outcome,
                     second: Outcome)
    requires row.Some? ==> row.value.id.request != a.request
    requires Alone(row, a, now, hash, first).2 && Succeeded(first)
    ensures var (kept, answer, _) := Alone(row, a, now, hash, first);
            Alone(kept, b, later, hash, second) == (kept, Replay(answer.outcome.response), false)
            && forall other :: other != hash ==> Alone(kept, b, later, other, second) == (kept, Conflict, false)
  {
  }

  /** After a failure the key is free again: the second call runs the route. */
  lemma FailureFreesTheKey(row: Option<Row>, a: Id, b: Id, now: int, later: int, hash: string, other: string,
                           first: Outcome, second: Outcome)
    requires Alone(row, a, now, hash, first).2 && !Succeeded(first)
    ensures var (kept, _, _) := Alone(row, a, now, hash, first);
            Alone(kept, b, later, other, second).2
  {
  }

  // ----- what a caller is answered, status by status

  /** A dispatch that ends in a 2xx: its status and bytes are answered and kept, but 204 and 205 carry no bytes. */
  lemma SuccessIsKept(row: Option<Row>, id: Id, now: int, hash: string, status: int, bytes: seq<bv8>)
    requires 200 <= status <= 299 && (row.Some? ==> row.value.id.request != id.request)
    requires Alone(row, id, now, hash, Responded(Response(status, bytes))).2
    ensures var (kept, answer, _) := Alone(row, id, now, hash, Responded(Response(status, bytes)));
            var sent := Response(status, if status == 204 || status == 205 then [] else bytes);
            && answer == Own(Responded(sent))
            && kept.Some? && kept.value.response == Some(sent)
            && kept.value.id.request == id.request && kept.value.hash == hash && kept.value.createdAt == now
  {
  }

  /** Any other status, and a throw, is answered as it came, and no row is left. */
  lemma FailureIsPassedOn(row: Option<Row>, id: Id, now: int, hash: string, outcome: Outcome)
    requires outcome.Threw? || outcome.response.status < 200 || outcome.response.status > 299
    requires row.Some? ==> row.value.id.request != id.request
    requires Alone(row, id, now, hash, outcome).2
    ensures Alone(row, id, now, hash, outcome) == (None, Own(outcome), true)
  {
  }

  /** The route runs exactly for an empty table or a row that is pending for more than five minutes. */
  lemma DispatchesIff(row: Option<Row>, id: Id, now: int, hash: string, outcome: Outcome)
    ensures Alone(row, id, now, hash, outcome).2 <==>
            row.None? || (row.value.response.None? && now - row.value.createdAt > 300000)
  {
  }

  /**
   Otherwise the row stays, and another body or a pending row is a conflict,
   while the stored status and bytes are replayed, with no bytes for 204, 205
   and 304.
   */
  lemma LoserIsAnswered(row: Option<Row>, id: Id, now: int, hash: string, outcome: Outcome)
    requires row.Some? && (row.value.response.Some? || now - row.value.createdAt <= 300000)
    ensures Alone(row, id, now, hash, outcome).0 == row
    ensures row.value.response.None? || row.value.hash != hash ==>
              Alone(row, id, now, hash, outcome).1 == Conflict
    ensures row.value.response.Some? && row.value.hash == hash ==>
              var Response(status, bytes) := row.value.response.value;
              Alone(row, id, now, hash, outcome).1 ==
              Replay(Response(status, if status in {204, 205, 304} then [] else bytes))
  {
  }
}
