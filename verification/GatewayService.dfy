/**
 * The gateway's own code over its tables, one call at a time, with every other process free to run
 * between any two calls. Each method is proved to be a run of the lifecycle.
 */
module GatewayService {
  import opened Text
  import opened Errors
  import opened CreditLedger
  import opened GatewayLifecycle
  import GatewaySettlement

  /** The answer to "has this key already been run?". */
  datatype Replay =
    | Fresh              // nothing recorded, or a transient failure has been moved aside
    | Replayed(id: nat)  // the recorded outcome stands
    | StillRunning       // a request with this key is not terminal
    | NameClash          // the superseded name was taken, so the update failed
    | Contended          // three lost races

  datatype Creation = Created(id: nat) | Answered(replay: Replay)

  /** How a call to the gateway ends: with what was recorded, or by running the request it created. */
  datatype Execution = Recorded(replay: Replay) | Ran(id: nat, thrown: bool)

  datatype ReserveReply = Granted | Short | Broken

  /** What the provider walk hands back: usage to charge, or a class and whether a provider was ever reached. */
  datatype WalkReply = Output(charge: nat) | Exhausted(cls: FailureClass, usageRow: bool)

  /** How each call out of `RunReserved` goes: the answers of the wallet, the provider and the database. */
  datatype World = World(reserve: ReserveReply, noteOk: bool, flagged: bool, startOk: bool, walk: WalkReply,
                         settleOk: bool, recordOk: bool, releaseOk: bool, failureOk: bool)

  // --- How a request of its own ends, read off the World ---------------------------------------------------

  predicate Reserves(estimate: nat, w: World) {
    w.reserve == Granted && 0 < estimate
  }

  /** The walk is started: reserved, noted, not flagged, and marked running. */
  predicate Walks(estimate: nat, w: World) {
    Reserves(estimate, w) && w.noteOk && !w.flagged && w.startOk
  }

  predicate Succeeds(estimate: nat, w: World) {
    Walks(estimate, w) && w.walk.Output? && w.walk.charge <= estimate && w.settleOk && w.recordOk
  }

  predicate Blocks(estimate: nat, w: World) {
    Reserves(estimate, w) && w.noteOk && w.flagged && w.releaseOk && w.failureOk
  }

  /** Refused by the wallet, or its reservation's id could not be noted: thrown, with the failure on record. */
  predicate RefusedOnRecord(estimate: nat, w: World) {
    !(Reserves(estimate, w) && w.noteOk) && w.failureOk
  }

  /** The walk brought nothing that stands: given back, and the failure on record. */
  predicate GivenBackOnRecord(estimate: nat, w: World) {
    Walks(estimate, w) && !Succeeds(estimate, w) && w.releaseOk && w.failureOk
  }

  function RefusalClass(estimate: nat, w: World): FailureClass {
    if w.reserve == Short && estimate != 0 then QuotaExceeded else Unknown
  }

  /** A wallet that could not cover it, the class the chain ended on, or an answer that could not be kept. */
  function ClassOnRecord(estimate: nat, w: World): FailureClass {
    if !Walks(estimate, w) then RefusalClass(estimate, w)
    else if w.walk.Exhausted? then w.walk.cls
    else Unknown
  }

  /** The row a request ends with, status by status: each exactly when the World says so. */
  predicate Outcome(row: Row, estimate: nat, w: World) {
    && (row.status == Succeeded <==> Succeeds(estimate, w))
    && (row.status == Succeeded ==> row.charged == w.walk.charge)
    && (row.status == ModerationBlocked <==> Blocks(estimate, w))
    && (row.status == ModerationBlocked ==> row.failure == Some(ContentFiltered) && row.charged == 0)
    && (row.status in {Failed, TimedOut} <==> RefusedOnRecord(estimate, w) || GivenBackOnRecord(estimate, w))
    && (row.status in {Failed, TimedOut} ==>
          && row.failure == Some(ClassOnRecord(estimate, w)) && row.charged == 0
          && (row.status == TimedOut <==> ClassOnRecord(estimate, w) == Timeout))
    && (!Terminal(row.status) <==> LeftForTheSweep(estimate, w))
  }

  /** A write failed on the way and nothing else is on record. */
  predicate LeftForTheSweep(estimate: nat, w: World) {
    if !(Reserves(estimate, w) && w.noteOk) then !w.failureOk
    else if w.flagged then !(w.releaseOk && w.failureOk)
    else !w.startOk || (!Succeeds(estimate, w) && !(w.releaseOk && w.failureOk))
  }

  /** Which rival callers get in between: one that moves the row between a read and its update, per attempt, and any at all before the claim. */
  datatype Rivals = Rivals(race: nat -> bool, between: bool)

  predicate Holds(s: State, key: string, i: nat) {
    i < |s.reqs| && s.reqs[i].row.name == key
  }

  lemma OneHolder(s: State, key: string, i: nat, j: nat)
    requires Inv(s) && Holds(s, key, i) && Holds(s, key, j)
    ensures i == j
  {
    assert !(i < j) && !(j < i);
  }

  /**
   * What a caller must be told about a key some row holds. A running request is reported and a standing outcome
   * replayed, and neither changes anything; a transient failure gives the key to the caller that wins the race for it,
   * unless the name it would be moved to is taken.
   */
  ghost predicate AnswersHolder(s: State, key: string, i: nat, lost: bool, r: Replay, after: State)
    requires i < |s.reqs|
  {
    var row := s.reqs[i].row;
    && (!Terminal(row.status) ==> r.StillRunning? && after == s)
    && (Terminal(row.status) && !Retryable(row) ==> r == Replayed(i) && after == s)
    && (Retryable(row) && !lost ==> r == if NameTaken(s, SupersededName(key, i)) then NameClash else Fresh)
  }

  /** A free key is fresh, and only a lost race ends without an answer. */
  ghost predicate Answers(s: State, key: string, lost: bool, r: Replay, after: State) {
    && (!NameTaken(s, key) ==> r.Fresh? && after == s)
    && (forall i :: Holds(s, key, i) ==> AnswersHolder(s, key, i, lost, r, after))
    && (r.Contended? ==> lost)
  }

  /** Whatever came between, an answer is true of the table it is given on. */
  ghost predicate Reports(s: State, key: string, r: Replay) {
    && (r.Fresh? ==> !NameTaken(s, key))
    && (r.Replayed? ==> Holds(s, key, r.id) && Terminal(s.reqs[r.id].row.status) && !Retryable(s.reqs[r.id].row))
    && (r.StillRunning? ==> exists i: nat :: Holds(s, key, i) && !Terminal(s.reqs[i].row.status))
  }

  lemma AnswersByHolder(s: State, key: string, i: nat, lost: bool, r: Replay, after: State)
    requires Inv(s) && Holds(s, key, i) && AnswersHolder(s, key, i, lost, r, after) && (r.Contended? ==> lost)
    ensures Answers(s, key, lost, r, after)
  {
    forall j | Holds(s, key, j)
      ensures AnswersHolder(s, key, j, lost, r, after)
    {
      OneHolder(s, key, i, j);
    }
  }

  /** Having lost the race, any answer will do: the key was held by a transient failure. */
  lemma AfterALostRace(s: State, key: string, mid: State, r: Replay, after: State)
    requires Inv(s) && Answers(s, key, true, Contended, mid)
    ensures Answers(s, key, true, r, after)
  {
    assert NameTaken(s, key);
    var i :| 0 <= i < |s.reqs| && s.reqs[i].row.name == key;
    assert Holds(s, key, i) && AnswersHolder(s, key, i, true, Contended, mid);
    AnswersByHolder(s, key, i, true, r, after);
  }

  ghost predicate ExecutesHolder(s: State, key: string, i: nat, rivals: Rivals, e: Execution, after: State)
    requires i < |s.reqs|
  {
    var row := s.reqs[i].row;
    && (!Terminal(row.status) ==> e == Recorded(StillRunning) && after == s)
    && (Terminal(row.status) && !Retryable(row) ==> e == Recorded(Replayed(i)) && after == s)
    && (Retryable(row) && !rivals.race(0) && !rivals.between ==>
          if NameTaken(s, SupersededName(key, i)) then e == Recorded(NameClash) else e.Ran?)
  }

  ghost predicate Reached(s: State, s': State) {
    exists steps: seq<Step> :: ValidRun(s, steps) && Exec(s, steps) == s'
  }

  lemma ReachedSelf(s: State)
    ensures Reached(s, s)
  {
    assert ValidRun(s, []) && Exec(s, []) == s;
  }

  lemma ReachedStep(s0: State, s: State, st: Step)
    requires Reached(s0, s) && Enabled(s, st)
    ensures Reached(s0, Next(s, st))
  {
    var steps: seq<Step> :| ValidRun(s0, steps) && Exec(s0, steps) == s;
    assert [st][1..] == [];
    assert ValidRun(Next(s, st), []) && Exec(Next(s, st), []) == Next(s, st);
    assert ValidRun(s, [st]) && Exec(s, [st]) == Next(s, st);
    RunsCompose(s0, steps, [st]);
  }

  lemma ReachedTransitive(s0: State, s1: State, s2: State)
    requires Reached(s0, s1) && Reached(s1, s2)
    ensures Reached(s0, s2)
  {
    var a: seq<Step> :| ValidRun(s0, a) && Exec(s0, a) == s1;
    var b: seq<Step> :| ValidRun(s1, b) && Exec(s1, b) == s2;
    RunsCompose(s0, a, b);
  }

  /** What other processes may do to a request somebody owns: nothing but let its hold lapse. */
  predicate Spares(st: Step, id: nat) {
    st.On? && st.id == id ==> st.act == ExpireHold
  }

  ghost predicate ReachedByOthers(s: State, s': State, id: nat) {
    exists steps: seq<Step> ::
      ValidRun(s, steps) && Exec(s, steps) == s' && forall k :: 0 <= k < |steps| ==> Spares(steps[k], id)
  }

  /** The owner of a request finds it as it left it, except that an open hold may have expired. */
  predicate SameButExpiry(r: Request, r': Request) {
    && r'.row == r.row && r'.proc == r.proc
    && (r'.hold == r.hold
        || (HoldOk(r) && r.hold.value.status == Open && r'.hold == Some(Release(r.hold.value, Expired))))
  }

  lemma {:induction false} OthersSpareTheOwned(s: State, steps: seq<Step>, id: nat)
    requires Inv(s) && ValidRun(s, steps) && id < |s.reqs| && s.reqs[id].proc.Some?
    requires forall k :: 0 <= k < |steps| ==> Spares(steps[k], id)
    ensures Inv(Exec(s, steps)) && id < |Exec(s, steps).reqs|
    ensures SameButExpiry(s.reqs[id], Exec(s, steps).reqs[id])
    decreases |steps|
  {
    if steps != [] {
      StepKeepsInv(s, steps[0]);
      assert RequestInv(s.reqs[id], UsageOf(s.usage, id));
      assert Spares(steps[0], id);
      OthersSpareTheOwned(Next(s, steps[0]), steps[1..], id);
    }
  }

  lemma AskedSurvives(s: State, s': State, i: nat)
    requires Reached(s, s') && i < |s.reqs|
    ensures i < |s'.reqs| && s'.reqs[i].row.asked == s.reqs[i].row.asked
  {
    var steps: seq<Step> :| ValidRun(s, steps) && Exec(s, steps) == s';
    GatewaySettlement.AskedIsKept(s, steps, i);
  }

  class AiGateway {
    var rows: seq<Row>
    var holds: seq<Option<Hold>>
    var usage: seq<Usage>
    ghost var procs: seq<Option<Pc>>
    ghost var tokens: set<(nat, string)>

    ghost predicate Shaped()
      reads this
    {
      |rows| == |holds| == |procs|
    }

    ghost function At(i: nat): Request
      requires Shaped() && i < |rows|
      reads this
    {
      Request(rows[i], holds[i], procs[i])
    }

    ghost function View(): (s: State)
      requires Shaped()
      reads this
      ensures |s.reqs| == |rows| && s.usage == usage && s.tokens == tokens
      ensures forall i :: 0 <= i < |rows| ==> s.reqs[i] == At(i)
    {
      var rs, hs, ps := rows, holds, procs;
      State(seq(|rs|, i requires 0 <= i < |rs| => Request(rs[i], hs[i], ps[i])), usage, tokens)
    }

    ghost predicate Valid()
      reads this
    {
      Shaped() && Inv(View())
    }

    constructor ()
      ensures Valid() && View() == INIT
    {
      rows, holds, usage, procs, tokens := [], [], [], [], {};
    }

    /** Any other processes run here, for any number of steps; a caller learns only what they may not do. */
    method Interfere(ghost id: nat)
      requires Valid()
      modifies this
      ensures Valid() && ReachedByOthers(old(View()), View(), id)
    {
      assert ValidRun(View(), []) && Exec(View(), []) == View();
    }

    method Yield(id: nat, ghost start: State)
      requires Valid() && id < |rows| && procs[id].Some? && Reached(start, View())
      modifies this
      ensures Valid() && id < |rows| && Reached(start, View())
      ensures SameButExpiry(old(At(id)), At(id))
    {
      Interfere(id);
      ghost var before, after := old(View()), View();
      ghost var steps: seq<Step> :|
        ValidRun(before, steps) && Exec(before, steps) == after && forall k :: 0 <= k < |steps| ==> Spares(steps[k], id);
      OthersSpareTheOwned(before, steps, id);
      ReachedTransitive(start, before, after);
    }

    /** The row and hold a call leaves behind are those of one act of the owner. */
    lemma Commit(start: State, before: State, id: nat, act: Act)
      requires Shaped() && Inv(before) && Reached(start, before)
      requires id < |before.reqs| && CanAct(before.reqs[id], act)
      requires |rows| == |before.reqs| && tokens == before.tokens
      requires At(id) == After(before.reqs[id], act)
      requires forall i :: 0 <= i < |rows| && i != id ==> At(i) == before.reqs[i]
      requires usage == before.usage + Rows(id, UsageCharges(before.reqs[id], act))
      ensures Valid() && Reached(start, View())
    {
      assert View().reqs == Next(before, On(id, act)).reqs;
      StepKeepsInv(before, On(id, act));
      ReachedStep(start, before, On(id, act));
    }

    /** Move on without a write: only the process counter changes, and other processes may run. */
    method Goto(id: nat, ghost act: Act, ghost start: State)
      requires Valid() && id < |rows| && Reached(start, View()) && CanAct(At(id), act)
      requires After(At(id), act).row == rows[id] && After(At(id), act).hold == holds[id]
      requires After(At(id), act).proc.Some? && UsageCharges(At(id), act) == []
      modifies this
      ensures Valid() && id < |rows| && Reached(start, View())
      ensures SameButExpiry(After(old(At(id)), act), At(id))
    {
      ghost var before := View();
      procs := procs[id := After(At(id), act).proc];
      assert usage == usage + Rows(id, []);
      Commit(start, before, id, act);
      Yield(id, start);
    }

    /** The process ends without another write; whatever it left behind is the sweep's. */
    method Stop(id: nat, ghost start: State)
      requires Valid() && id < |rows| && Reached(start, View()) && procs[id].Some?
      modifies this`procs
      ensures Valid() && Reached(start, View()) && procs[id].None?
    {
      ghost var before := View();
      procs := procs[id := None];
      assert usage == usage + Rows(id, []);
      Commit(start, before, id, Act.Crash);
    }

    /** Write the row of a request that stays with its process. */
    method WriteRow(id: nat, row: Row, ghost act: Act, ghost start: State)
      requires Valid() && id < |rows| && Reached(start, View()) && CanAct(At(id), act)
      requires After(At(id), act).row == row && After(At(id), act).hold == holds[id]
      requires After(At(id), act).proc.Some? && UsageCharges(At(id), act) == []
      modifies this
      ensures Valid() && id < |rows| && Reached(start, View())
      ensures SameButExpiry(After(old(At(id)), act), At(id))
    {
      ghost var before := View();
      rows := rows[id := row];
      procs := procs[id := After(before.reqs[id], act).proc];
      assert usage == usage + Rows(id, []);
      Commit(start, before, id, act);
      Yield(id, start);
    }

    /** The row that currently holds a key. */
    method FindByKey(key: string) returns (found: Option<nat>)
      requires Valid()
      ensures found.Some? ==> found.value < |rows| && rows[found.value].name == key
      ensures found.None? ==> !NameTaken(View(), key)
    {
      found := None;
      for i := 0 to |rows|
        invariant found.None?
        invariant forall k :: 0 <= k < i ==> rows[k].name != key
      {
        if rows[i].name == key {
          return Some(i);
        }
      }
    }

    /**
     * Three tries to read the key and, when its row is a transient failure, to move it aside. A success
     * or a repeatable verdict is replayed; nothing else ever frees the key.
     */
    method ReplayIfRecorded(key: string, race: nat -> bool) returns (r: Replay)
      requires Valid()
      modifies this
      ensures Valid() && Reached(old(View()), View())
      ensures Answers(old(View()), key, race(0), r, View())
      ensures r.Contended? ==> race(0) && race(1) && race(2)
      ensures Reports(View(), key, r)
    {
      ghost var start := View();
      ReachedSelf(start);
      ghost var first := start;
      for attempt := 0 to 3
        invariant Valid() && Reached(start, View())
        invariant attempt == 0 ==> View() == start
        invariant 0 < attempt ==> Answers(start, key, true, Contended, first)
        invariant forall k :: 0 <= k < attempt ==> race(k)
      {
        r := ReplayOnce(key, race(attempt), start);
        if !r.Contended? {
          if 0 < attempt {
            AfterALostRace(start, key, first, r, View());
          }
          return;
        }
        if attempt == 0 {
          first := View();
        }
      }
      AfterALostRace(start, key, first, Contended, View());
      return Contended;
    }

    /** One try: read the key, and move its row aside if that is a transient failure. */
    method ReplayOnce(key: string, lost: bool, ghost start: State) returns (r: Replay)
      requires Valid() && Reached(start, View())
      modifies this
      ensures Valid() && Reached(start, View())
      ensures Answers(old(View()), key, lost, r, View())
      ensures Reports(View(), key, r)
    {
      ghost var read := View();
      var existing := FindByKey(key);
      if existing.None? {
        return Fresh;
      }
      var id := existing.value;
      assert RequestInv(At(id), UsageOf(usage, id));
      if !Terminal(rows[id].status) {
        assert Holds(read, key, id);
        AnswersByHolder(read, key, id, lost, StillRunning, read);
        return StillRunning;
      }
      if rows[id].status == Succeeded || rows[id].status == ModerationBlocked
         || (rows[id].failure.Some? && IsDeterministic(rows[id].failure.value)) {
        AnswersByHolder(read, key, id, lost, Replayed(id), read);
        return Replayed(id);
      }
      r := TryToFree(id, key, lost, start);
      AnswersByHolder(read, key, id, lost, r, View());
    }

    /** Move the transient failure aside that was just read, unless another caller gets there in between. */
    method TryToFree(id: nat, key: string, lost: bool, ghost start: State) returns (r: Replay)
      requires Valid() && Reached(start, View()) && id < |rows| && rows[id].name == key && Retryable(rows[id])
      modifies this
      ensures Valid() && Reached(start, View())
      ensures r in {Fresh, NameClash, Contended} && (r.Contended? ==> lost)
      ensures r.Fresh? ==> !NameTaken(View(), key)
      ensures !lost ==> r == if NameTaken(old(View()), SupersededName(key, id)) then NameClash else Fresh
    {
      ghost var read := View();
      NoteRead(id, key, start);
      // Other callers may move the same row between the read and the conditional update.
      Race(id, key, lost, start);
      assert !lost ==> View().reqs == read.reqs;
      var moved := MoveAside(id, key, start);
      return if moved.Some? then moved.value else Contended;
    }

    /** The read a later conditional update acts on. */
    ghost method NoteRead(id: nat, key: string, start: State)
      requires Valid() && Reached(start, View()) && id < |rows| && rows[id].name == key && Retryable(rows[id])
      modifies this`tokens
      ensures Valid() && Reached(start, View()) && (id, key) in tokens
    {
      var before := View();
      tokens := tokens + {(id, key)};
      assert View() == Next(before, ReadRetryable(id, key));
      StepKeepsInv(before, ReadRetryable(id, key));
      ReachedStep(start, before, ReadRetryable(id, key));
    }

    /** Other callers, of this key or any other. */
    method Race(id: nat, key: string, lost: bool, ghost start: State)
      requires Valid() && (id, key) in tokens && id < |rows| && Reached(start, View())
      modifies this
      ensures Valid() && (id, key) in tokens && id < |rows| && Reached(start, View())
      ensures !lost ==> View() == old(View())
    {
    }

    /**
     * Rename the row, on condition that it still holds the key. No answer means another caller had already
     * moved it.
     */
    method MoveAside(id: nat, key: string, ghost start: State) returns (r: Option<Replay>)
      requires Valid() && (id, key) in tokens && id < |rows| && Reached(start, View())
      modifies this`rows
      ensures Valid() && Reached(start, View())
      ensures r.None? <==> old(rows[id].name) != key
      ensures r.Some? ==> r.value in {Fresh, NameClash}
      ensures r == Some(NameClash) ==> NameTaken(old(View()), SupersededName(key, id))
      ensures r == Some(Fresh) ==> !NameTaken(old(View()), SupersededName(key, id))
      ensures r == Some(Fresh) ==> !NameTaken(View(), key) && rows[id] == old(rows[id]).(name := SupersededName(key, id))
      ensures r != Some(Fresh) ==> rows == old(rows)
      ensures forall i :: 0 <= i < |rows| && i != id ==> rows[i] == old(rows[i])
    {
      ghost var before := View();
      StepKeepsInv(before, Supersede(id, key));
      ReachedStep(start, before, Supersede(id, key));
      if rows[id].name != key {
        return None;
      }
      var aside := SupersededName(key, id);
      var clash := FindByKey(aside);
      if clash.Some? {
        assert before.reqs[clash.value].row.name == aside;
        return Some(NameClash);
      }
      rows := rows[id := rows[id].(name := aside)];
      assert View().reqs == Next(before, Supersede(id, key)).reqs;
      forall i | 0 <= i < |rows|
        ensures rows[i].name != key
      {
        assert before.reqs[i].row.name == old(rows[i].name) && before.reqs[id].row.name == key;
      }
      return Some(Fresh);
    }

    /**
     * Claim the key by inserting its row. Losing the unique index means reading the winner's outcome.
     */
    method CreateRequest(key: string, estimate: nat, race: nat -> bool) returns (c: Creation)
      requires Valid()
      modifies this
      ensures Valid() && Reached(old(View()), View())
      ensures c.Created? ==>
                && c.id == |rows| - 1 && rows[c.id].name == key == rows[c.id].asked
                && rows[c.id].status == Pending && holds[c.id].None? && procs[c.id] == Some(Claimed)
                && rows[c.id].estimate == estimate && !NameTaken(old(View()), key)
      ensures c.Created? <==> !NameTaken(old(View()), key)
      ensures c.Answered? && c.replay.Replayed? ==>
                c.replay.id < |rows| && Terminal(rows[c.replay.id].status) && !Retryable(rows[c.replay.id])
    {
      ReachedSelf(View());
      ghost var before := View();
      var taken := FindByKey(key);
      if taken.Some? {
        assert before.reqs[taken.value].row.name == key;
        var replay := ReplayIfRecorded(key, race);
        return Creation.Answered(replay);
      }
      rows := rows + [Row(key, key, Pending, None, estimate, 0, false)];
      holds := holds + [None];
      procs := procs + [Some(Claimed)];
      assert View().reqs == Next(before, Claim(key, estimate)).reqs;
      StepKeepsInv(before, Claim(key, estimate));
      ReachedStep(before, before, Claim(key, estimate));
      return Created(|rows| - 1);
    }

    /** Write the failure: status by class, no charge, and a zero usage row when a provider was reached. */
    method RecordFailure(id: nat, cls: FailureClass, usageRow: bool, ok: bool, ghost start: State) returns (done: bool)
      requires Valid() && id < |rows| && Reached(start, View())
      requires procs[id] == Some(Given(cls, usageRow)) || (procs[id] == Some(Refused(cls)) && !usageRow)
      modifies this
      ensures Valid() && id < |rows| && Reached(start, View()) && procs[id].None?
      ensures done == ok && holds[id] == old(holds[id])
      ensures rows[id] == if ok then FailedRow(old(rows[id]), cls) else old(rows[id])
      ensures usage == old(usage) + if ok && usageRow then [Usage(id, 0)] else []
    {
      ghost var before := View();
      if !ok {
        procs := procs[id := None];
        assert usage == usage + Rows(id, []);
        Commit(start, before, id, Act.Crash);
        return false;
      }
      rows := rows[id := FailedRow(rows[id], cls)];
      if usageRow {
        usage := usage + [Usage(id, 0)];
        assert Rows(id, [0]) == [Usage(id, 0)];
      } else {
        assert usage == usage + Rows(id, []);
      }
      procs := procs[id := None];
      Commit(start, before, id, Act.RecordFailure);
      return true;
    }

    /** Release in full, then record. A release that throws leaves the row for the sweep. */
    method ReleaseAndRecord(id: nat, cls: FailureClass, usageRow: bool, releaseOk: bool, failureOk: bool, ghost start: State)
      returns (done: bool)
      requires Valid() && id < |rows| && Reached(start, View()) && procs[id] == Some(Giving(cls, usageRow))
      modifies this
      ensures Valid() && id < |rows| && Reached(start, View()) && procs[id].None?
      ensures done <==> releaseOk && failureOk
      ensures done ==> rows[id] == FailedRow(old(rows[id]), cls) && (rows[id].noted ==> Closed(At(id)))
      ensures !done ==> rows[id] == old(rows[id])
    {
      assert RequestInv(At(id), UsageOf(usage, id));
      if !releaseOk {
        Stop(id, start);
        return false;
      }
      ghost var before := View();
      if rows[id].noted {
        holds := holds[id := Some(Release(holds[id].value, Released))];
      }
      procs := procs[id := Some(Given(cls, usageRow))];
      assert usage == usage + Rows(id, []);
      Commit(start, before, id, Act.ReleaseHold);
      Yield(id, start);
      done := RecordFailure(id, cls, usageRow, failureOk, start);
      assert RequestInv(At(id), UsageOf(usage, id));
    }

    /** The wallet's settlement; a refusal or a fault sends the request down the failure path. */
    method SettleHold(id: nat, charge: nat, settleOk: bool, ghost start: State) returns (paid: bool)
      requires Valid() && id < |rows| && Reached(start, View()) && procs[id] == Some(Pc.Answered(charge))
      modifies this
      ensures Valid() && id < |rows| && Reached(start, View()) && rows[id] == old(rows[id])
      ensures paid ==> procs[id] == Some(Paid(charge)) && SpentAs(At(id), charge)
      ensures old(holds[id]).Some?
      ensures paid <==> settleOk && (old(holds[id]).value.status != Open || charge <= old(holds[id]).value.estimate)
      // An open hold is settled for exactly the charge; a closed one, and the hold of a refused settlement, stays as it was or lapses.
      ensures paid && old(holds[id]).value.status == Open ==>
                holds[id] == Some(old(holds[id]).value.(status := CreditLedger.Settled, settled := charge))
      ensures paid && old(holds[id]).value.status != Open ==> holds[id] == old(holds[id])
      ensures !paid ==> procs[id] == Some(Giving(Unknown, true)) && !Spent(At(id))
    {
      assert RequestInv(At(id), UsageOf(usage, id));
      if !settleOk {
        Goto(id, Act.SettleFault, start);
        return false;
      }
      var result := Settle(holds[id].value, charge);
      if result.Conflict? {
        Goto(id, Act.SettleHold, start);
        return false;
      }
      ghost var before := View();
      holds := holds[id := Some(result.hold)];
      procs := procs[id := Some(Paid(charge))];
      assert usage == usage + Rows(id, []);
      Commit(start, before, id, Act.SettleHold);
      Yield(id, start);
      assert RequestInv(At(id), UsageOf(usage, id));
      return true;
    }

    /** The success and its usage row, in one transaction; the table refuses a charge above the reservation. */
    method RecordSuccess(id: nat, charge: nat, recordOk: bool, ghost start: State) returns (done: bool)
      requires Valid() && id < |rows| && Reached(start, View()) && procs[id] == Some(Paid(charge))
      modifies this
      ensures Valid() && id < |rows| && Reached(start, View())
      ensures done <==> recordOk && charge <= old(rows[id]).estimate
      ensures done ==>
                && rows[id] == old(rows[id]).(status := Succeeded, charged := charge)
                && procs[id].None? && SpentAs(At(id), charge) && rows[id].noted
                && usage == old(usage) + [Usage(id, charge)]
      ensures !done ==> rows[id] == old(rows[id]) && procs[id] == Some(Giving(Unknown, true))
    {
      assert RequestInv(At(id), UsageOf(usage, id));
      if !recordOk || charge > rows[id].estimate {
        Goto(id, Act.RecordFault, start);
        return false;
      }
      ghost var before := View();
      rows := rows[id := rows[id].(status := Succeeded, charged := charge)];
      usage := usage + [Usage(id, charge)];
      assert Rows(id, [charge]) == [Usage(id, charge)];
      procs := procs[id := None];
      Commit(start, before, id, Act.RecordSuccess);
      return true;
    }

    /** The wallet first, the row and the usage row together afterwards. */
    method SettleAndRecord(id: nat, charge: nat, settleOk: bool, recordOk: bool, ghost start: State) returns (done: bool)
      requires Valid() && id < |rows| && Reached(start, View()) && procs[id] == Some(Pc.Answered(charge))
      modifies this
      ensures Valid() && id < |rows| && Reached(start, View())
      ensures done <==> settleOk && recordOk && charge <= old(rows[id]).estimate
      ensures done ==>
                && rows[id] == old(rows[id]).(status := Succeeded, charged := charge) && rows[id].noted
                && charge <= rows[id].estimate && procs[id].None? && SpentAs(At(id), charge)
      ensures !done ==> rows[id] == old(rows[id]) && procs[id] == Some(Giving(Unknown, true))
    {
      assert RequestInv(At(id), UsageOf(usage, id));
      done := SettleHold(id, charge, settleOk, start);
      if done {
        done := RecordSuccess(id, charge, recordOk, start);
      }
    }

    /** Release, then mark the row blocked. */
    method BlockForModeration(id: nat, releaseOk: bool, recordOk: bool, ghost start: State) returns (done: bool)
      requires Valid() && id < |rows| && Reached(start, View()) && procs[id] == Some(Flagged)
      modifies this
      ensures Valid() && id < |rows| && Reached(start, View()) && procs[id].None?
      ensures done <==> releaseOk && recordOk
      ensures done ==> rows[id].status == ModerationBlocked && rows[id].failure == Some(ContentFiltered)
      ensures done ==> rows[id].charged == 0 && rows[id].noted
      ensures done ==> Closed(At(id)) && NotSpent(At(id))
      ensures !done ==> rows[id] == old(rows[id])
    {
      assert RequestInv(At(id), UsageOf(usage, id));
      if !releaseOk {
        Stop(id, start);
        return false;
      }
      ghost var before := View();
      holds := holds[id := Some(Release(holds[id].value, Released))];
      procs := procs[id := Some(FlagReleased)];
      assert usage == usage + Rows(id, []);
      Commit(start, before, id, Act.ReleaseFlagged);
      Yield(id, start);
      assert RequestInv(At(id), UsageOf(usage, id));
      if !recordOk {
        Stop(id, start);
        return false;
      }
      ghost var released := View();
      rows := rows[id := rows[id].(status := ModerationBlocked, failure := Some(ContentFiltered), charged := 0)];
      procs := procs[id := None];
      assert usage == usage + Rows(id, []);
      Commit(start, released, id, Act.RecordBlocked);
      return true;
    }

    /** The wallet's hold. A refusal is recorded and rethrown; nothing was charged and no provider was called. */
    method ReserveCredits(id: nat, w: World, ghost start: State) returns (held: bool)
      requires Valid() && id < |rows| && Reached(start, View()) && procs[id] == Some(Claimed)
      modifies this
      ensures Valid() && id < |rows| && Reached(start, View())
      ensures held <==> Reserves(old(rows[id]).estimate, w)
      ensures held ==> procs[id] == Some(Held) && rows[id] == old(rows[id])
      ensures !held ==> procs[id].None? && !rows[id].noted
      ensures !held ==> rows[id] == if w.failureOk then FailedRow(old(rows[id]), RefusalClass(old(rows[id]).estimate, w)) else old(rows[id])
    {
      assert RequestInv(At(id), UsageOf(usage, id));
      if w.reserve != Granted || rows[id].estimate == 0 {
        var cls := RefusalClass(rows[id].estimate, w);
        Goto(id, Act.RefuseReserve(cls), start);
        assert RequestInv(At(id), UsageOf(usage, id));
        var _ := RecordFailure(id, cls, false, w.failureOk, start);
        return false;
      }
      ghost var before := View();
      holds := holds[id := Some(Hold(rows[id].estimate, Open, 0))];
      procs := procs[id := Some(Held)];
      assert usage == usage + Rows(id, []);
      Commit(start, before, id, Act.ReserveHold);
      Yield(id, start);
      return true;
    }

    /** Record the reservation id. If that write throws, the failure path has no id to release. */
    method NoteReservation(id: nat, w: World, ghost start: State) returns (noted: bool)
      requires Valid() && id < |rows| && Reached(start, View()) && procs[id] == Some(Held)
      modifies this
      ensures Valid() && id < |rows| && Reached(start, View())
      ensures noted <==> w.noteOk
      ensures noted ==> procs[id] == Some(Ready) && rows[id] == old(rows[id]).(status := Reserved, noted := true)
      ensures !noted ==> procs[id].None? && !rows[id].noted
      ensures !noted ==> rows[id] == if w.failureOk then FailedRow(old(rows[id]), Unknown) else old(rows[id])
    {
      assert RequestInv(At(id), UsageOf(usage, id));
      if w.noteOk {
        WriteRow(id, rows[id].(status := Reserved, noted := true), Act.NoteHold, start);
        return true;
      }
      Goto(id, Act.LoseNote, start);
      assert RequestInv(At(id), UsageOf(usage, id));
      var _ := RecordFailure(id, Unknown, false, w.failureOk, start);
      return false;
    }

    /**
     * Reserve, moderate, walk the chain, then settle or release. A normal return always leaves the row
     * terminal with its reservation closed. A throw leaves it either refused before any reservation id was
     * recorded, or non-terminal with no process, which is what the stuck-request sweep looks for.
     */
    method RunReserved(id: nat, w: World) returns (thrown: bool)
      requires Valid() && id < |rows| && procs[id] == Some(Claimed)
      modifies this
      ensures Valid() && id < |rows| && Reached(old(View()), View()) && procs[id].None?
      ensures !thrown ==> Terminal(rows[id].status) && rows[id].noted && Closed(At(id))
      ensures thrown ==> !Terminal(rows[id].status) || (rows[id].status == Failed && !rows[id].noted)
      ensures thrown <==> !Succeeds(old(rows[id]).estimate, w) && !Blocks(old(rows[id]).estimate, w) && !GivenBackOnRecord(old(rows[id]).estimate, w)
      ensures Outcome(rows[id], old(rows[id]).estimate, w)
    {
      ghost var start := View();
      ReachedSelf(start);
      assert RequestInv(At(id), UsageOf(usage, id));
      var held := ReserveCredits(id, w, start);
      if !held {
        return true;
      }
      var noted := NoteReservation(id, w, start);
      if !noted {
        return true;
      }
      thrown := ModerateAndWalk(id, w, start);
    }

    method ModerateAndWalk(id: nat, w: World, ghost start: State) returns (thrown: bool)
      requires Valid() && id < |rows| && Reached(start, View()) && procs[id] == Some(Ready)
      requires rows[id].status == Reserved && rows[id].noted && Reserves(rows[id].estimate, w) && w.noteOk
      modifies this
      ensures Valid() && id < |rows| && Reached(start, View()) && procs[id].None?
      ensures !thrown ==> Terminal(rows[id].status) && rows[id].noted && Closed(At(id))
      ensures thrown ==> !Terminal(rows[id].status)
      ensures thrown <==> !Succeeds(old(rows[id]).estimate, w) && !Blocks(old(rows[id]).estimate, w) && !GivenBackOnRecord(old(rows[id]).estimate, w)
      ensures Outcome(rows[id], old(rows[id]).estimate, w)
    {
      if w.flagged {
        Goto(id, Act.Flag, start);
        var blocked := BlockForModeration(id, w.releaseOk, w.failureOk, start);
        return !blocked;
      }
      if !w.startOk {
        Stop(id, start);
        return true;
      }
      WriteRow(id, rows[id].(status := Running), Act.StartWalk, start);
      if w.walk.Exhausted? {
        thrown := GiveUpWalk(id, w, start);
      } else {
        thrown := SettleWalk(id, w, start);
      }
    }

    /** The chain is exhausted: give the hold back and record the class it ended on. */
    method GiveUpWalk(id: nat, w: World, ghost start: State) returns (thrown: bool)
      requires Valid() && id < |rows| && Reached(start, View()) && procs[id] == Some(Walking)
      requires rows[id].status == Running && rows[id].noted && w.walk.Exhausted?
      modifies this
      ensures Valid() && id < |rows| && Reached(start, View()) && procs[id].None?
      ensures thrown <==> !(w.releaseOk && w.failureOk)
      ensures !thrown ==> rows[id].noted && Closed(At(id)) && rows[id].failure == Some(w.walk.cls) && rows[id].charged == 0
      ensures !thrown ==> rows[id].status == if w.walk.cls == Timeout then TimedOut else Failed
      ensures thrown ==> rows[id].status == Running
    {
      Goto(id, Act.GiveUp(w.walk.cls, w.walk.usageRow), start);
      var done := ReleaseAndRecord(id, w.walk.cls, w.walk.usageRow, w.releaseOk, w.failureOk, start);
      return !done;
    }

    /** A provider answered: settle and record, or give up on the answer. */
    method SettleWalk(id: nat, w: World, ghost start: State) returns (thrown: bool)
      requires Valid() && id < |rows| && Reached(start, View()) && procs[id] == Some(Walking)
      requires rows[id].status == Running && rows[id].noted && w.walk.Output?
      modifies this
      ensures Valid() && id < |rows| && Reached(start, View()) && procs[id].None?
      ensures !thrown ==> rows[id].noted && Closed(At(id)) && rows[id].status in {Succeeded, Failed}
      ensures rows[id].status == Succeeded <==> w.walk.charge <= old(rows[id]).estimate && w.settleOk && w.recordOk
      ensures rows[id].status == Succeeded ==> rows[id].charged == w.walk.charge
      ensures thrown <==> rows[id].status != Succeeded && !(w.releaseOk && w.failureOk)
      ensures rows[id].status == Failed ==> rows[id].failure == Some(Unknown) && rows[id].charged == 0
      ensures thrown ==> rows[id].status == Running
    {
      Goto(id, Act.Answer(w.walk.charge), start);
      var settled := SettleAndRecord(id, w.walk.charge, w.settleOk, w.recordOk, start);
      if settled {
        return false;
      }
      var done := ReleaseAndRecord(id, Unknown, true, w.releaseOk, w.failureOk, start);
      return !done;
    }

    /** Other callers, between two calls of one that owns nothing yet. */
    method Others(any: bool, ghost start: State)
      requires Valid() && Reached(start, View())
      modifies this
      ensures Valid() && Reached(start, View())
      ensures !any ==> View() == old(View())
    {
    }

    /**
     * The whole call: what the key already has, or a request of its own, claimed, reserved, walked and closed.
     * The estimate is what `Pricing.SizeRequest` sized; everybody else may run between any two calls.
     */
    method Execute(key: string, estimate: nat, w: World, rivals: Rivals) returns (e: Execution)
      requires Valid()
      modifies this
      ensures Valid() && Reached(old(View()), View())
      ensures e.Recorded? && e.replay.Replayed? ==>
                e.replay.id < |rows| && Terminal(rows[e.replay.id].status) && !Retryable(rows[e.replay.id])
      ensures e.Ran? ==> e.id < |rows| && rows[e.id].asked == key && procs[e.id].None?
      ensures e.Ran? && !e.thrown ==> Terminal(rows[e.id].status) && rows[e.id].noted && Closed(At(e.id))
      ensures e.Ran? && e.thrown ==> !Terminal(rows[e.id].status) || (rows[e.id].status == Failed && !rows[e.id].noted)
      // What ran ends as the World says.
      ensures e.Ran? ==> Outcome(rows[e.id], estimate, w)
      ensures e.Ran? ==> (e.thrown <==> !Succeeds(estimate, w) && !Blocks(estimate, w) && !GivenBackOnRecord(estimate, w))
      // A key that is running or has a standing outcome is only reported; a free or freed one runs, unless a rival is first.
      ensures !NameTaken(old(View()), key) && !rivals.between ==> e.Ran?
      ensures forall i :: Holds(old(View()), key, i) ==> ExecutesHolder(old(View()), key, i, rivals, e, View())
    {
      ghost var start := View();
      var replay := ReplayIfRecorded(key, rivals.race);
      if !replay.Fresh? {
        return Recorded(replay);
      }
      Others(rivals.between, start);
      ghost var before := View();
      var created := CreateRequest(key, estimate, rivals.race);
      ReachedTransitive(start, before, View());
      if created.Answered? {
        return Recorded(created.replay);
      }
      var id := created.id;
      ghost var claimed := View();
      var thrown := RunReserved(id, w);
      ReachedTransitive(start, claimed, View());
      AskedSurvives(claimed, View(), id);
      return Ran(id, thrown);
    }
  }
}
