/**
 * Idempotency keys. Reserving the key, running the handler and recording the
 * response share one database transaction, and any number of requests may be in
 * progress at once. An insert of a key waits while another open transaction holds
 * the same key; a row of another tenant or mode is invisible to every read, but
 * the unique key still counts it.
 */
module Idempotency {
  import opened Options

  datatype Owner = Owner(tenant: string, isTest: bool)
  datatype Response = Response(status: int, body: string)
  datatype Entry = Entry(owner: Owner, hash: string, response: Option<Response>)
  datatype Outcome =
    | Rejected | Mismatch | InFlight | Failed
    | Replayed(response: Response)
    | Fresh(response: Response)

  type Table = map<string, Entry>

  /// ## One request's decisions

  predicate KeyChar(c: char) {
    'A' <= c <= 'Z' || 'a' <= c <= 'z' || '0' <= c <= '9' || c == '_' || c == '-' || c == ':' || c == '.'
  }

  predicate WellFormedKey(key: string) {
    8 <= |key| <= 200 && forall c <- key :: KeyChar(c)
  }

  /** The row a caller can read under a key. */
  function Visible(table: Table, o: Owner, key: string): (r: Option<Entry>) {
    if key in table && table[key].owner == o then Some(table[key]) else None
  }

  /** The answer to a request that finds its key taken. */
  function Answer(e: Entry, hash: string): (r: Outcome) {
    if e.hash != hash then Mismatch
    else match e.response
      case None => InFlight
      case Some(r) => Replayed(r)
  }

  /// ## Requests in parallel

  datatype Phase = Arrived | Conflicted | Handling | Handled(response: Response)

  /** An open transaction; `own` is the row it has inserted and not yet committed. */
  datatype Tx = Tx(owner: Owner, key: string, hash: string, phase: Phase, own: Option<Entry>)
  datatype Reply = Reply(owner: Owner, key: string, hash: string, outcome: Outcome)

  /** `log` lists the replies sent; a `Fresh` reply is one committed run of the handler. */
  datatype State = State(table: Table, active: map<nat, Tx>, log: seq<Reply>)

  datatype Step =
    | Arrive(t: nat, owner: Owner, apiKey: bool, key: string, hash: string)
    | Insert(t: nat)
    | Read(t: nat)
    | Succeed(t: nat, response: Response)
    | Fail(t: nat)
    | Record(t: nat)
    | Commit(t: nat)
    | Crash(t: nat)

  const EMPTY := State(map[], map[], [])

  predicate Holds(s: State, t: nat, key: string) {
    t in s.active && s.active[t].own.Some? && s.active[t].key == key
  }

  predicate Held(s: State, key: string) {
    exists t <- s.active :: Holds(s, t, key)
  }

  predicate InPhase(s: State, t: nat, p: Phase) {
    t in s.active && s.active[t].phase == p
  }

  function ReplyOf(tx: Tx, outcome: Outcome): (r: Reply) {
    Reply(tx.owner, tx.key, tx.hash, outcome)
  }

  function Closed(s: State, t: nat, outcome: Outcome): (r: State)
    requires t in s.active
  {
    s.(active := s.active - {t}, log := s.log + [ReplyOf(s.active[t], outcome)])
  }

  /** One step of the system; a step that is not possible, or has to wait, changes nothing. */
  function Next(s: State, step: Step): (r: State) {
    match step
    case Arrive(t, o, apiKey, key, hash) =>
      if t in s.active then s
      else if key == "" && !apiKey then s.(active := s.active[t := Tx(o, key, hash, Handling, None)])
      else if !WellFormedKey(key) then s.(log := s.log + [Reply(o, key, hash, Rejected)])
      else s.(active := s.active[t := Tx(o, key, hash, Arrived, None)])
    case Insert(t) =>
      if InPhase(s, t, Arrived) && !Held(s, s.active[t].key) then
        var tx := s.active[t];
        if tx.key in s.table then s.(active := s.active[t := tx.(phase := Conflicted)])
        else s.(active := s.active[t := tx.(phase := Handling, own := Some(Entry(tx.owner, tx.hash, None)))])
      else s
    case Read(t) =>
      if InPhase(s, t, Conflicted) then
        var tx := s.active[t];
        match Visible(s.table, tx.owner, tx.key)
        case None => s.(active := s.active[t := tx.(phase := Handling)])
        case Some(e) => Closed(s, t, Answer(e, tx.hash))
      else s
    case Succeed(t, r) =>
      if InPhase(s, t, Handling) then s.(active := s.active[t := s.active[t].(phase := Handled(r))]) else s
    case Fail(t) =>
      if InPhase(s, t, Handling) then Closed(s, t, Failed) else s
    case Record(t) =>
      if t in s.active && s.active[t].phase.Handled? && s.active[t].own.Some? then
        var tx := s.active[t];
        s.(active := s.active[t := tx.(own := Some(tx.own.value.(response := Some(tx.phase.response))))])
      else s
    case Commit(t) =>
      if t in s.active && s.active[t].phase.Handled? then
        var tx := s.active[t];
        Closed(s, t, Fresh(tx.phase.response)).(
        table := if tx.own.Some? then s.table[tx.key := tx.own.value] else s.table)
      else s
    case Crash(t) => s.(active := s.active - {t})
  }

  function Run(s: State, steps: seq<Step>): (r: State)
    decreases |steps|
  {
    if steps == [] then s else Run(Next(s, steps[0]), steps[1..])
  }

  /// ## What every step keeps

  predicate OneHolder(s: State) {
    forall t <- s.active, u <- s.active :: Holds(s, t, s.active[u].key) && Holds(s, u, s.active[u].key) ==> t == u
  }

  predicate Matches(response: Option<Response>, r: Response) {
    response == None || response == Some(r)
  }

  /** A reservation is for a key nobody has committed; a handler without one runs beside a foreign row. */
  predicate TxFits(table: Table, tx: Tx) {
    && (tx.phase.Arrived? || tx.phase.Conflicted? ==> tx.key != "")
    && (tx.own.Some? ==>
          && tx.key != "" && tx.key !in table
          && tx.own.value.owner == tx.owner && tx.own.value.hash == tx.hash
          && (match tx.phase
              case Handling => tx.own.value.response == None
              case Handled(r) => Matches(tx.own.value.response, r)
              case _ => false))
    && (tx.own.None? && tx.key != "" && !tx.phase.Arrived? ==>
          tx.key in table && (tx.phase.Conflicted? || table[tx.key].owner != tx.owner))
  }

  predicate TxsFit(s: State) {
    forall t <- s.active :: TxFits(s.table, s.active[t])
  }

  /** The one reply under key `k` that ran the handler for the key's owner. */
  predicate IsOriginal(log: seq<Reply>, i: nat, k: string, e: Entry) {
    && i < |log| && log[i].key == k && log[i].owner == e.owner && log[i].hash == e.hash
    && log[i].outcome.Fresh? && Matches(e.response, log[i].outcome.response)
    && forall j: nat :: j < |log| && RanFor(log[j], k, e.owner) ==> j == i
  }

  predicate RanFor(r: Reply, k: string, o: Owner) {
    r.key == k && r.owner == o && r.outcome.Fresh?
  }

  ghost predicate HasOriginal(log: seq<Reply>, k: string, e: Entry) {
    exists i: nat :: IsOriginal(log, i, k, e)
  }

  ghost predicate EntriesFit(s: State) {
    forall k <- s.table :: k != "" && HasOriginal(s.log, k, s.table[k])
  }

  predicate ReplyFits(table: Table, r: Reply) {
    match r.outcome
    case Fresh(_) => r.key == "" || r.key in table
    case Rejected => true
    case Failed => true
    case _ => r.key in table && table[r.key].owner == r.owner && r.outcome == Answer(table[r.key], r.hash)
  }

  predicate RepliesFit(s: State) {
    forall i: nat :: i < |s.log| ==> ReplyFits(s.table, s.log[i])
  }

  ghost predicate Inv(s: State) {
    OneHolder(s) && TxsFit(s) && EntriesFit(s) && RepliesFit(s)
  }

  /** Committed rows never change and replies are never taken back. */
  predicate Evolves(s: State, t: State) {
    && (forall k <- s.table :: k in t.table && t.table[k] == s.table[k])
    && |s.log| <= |t.log|
    && (forall i: nat :: i < |s.log| ==> t.log[i] == s.log[i])
  }

  lemma NextEvolves(s: State, step: Step)
    requires TxsFit(s)
    ensures Evolves(s, Next(s, step))
  {
  }

  lemma NextKeepsHolder(s: State, step: Step)
    requires OneHolder(s)
    ensures OneHolder(Next(s, step))
  {
    if step.Insert? && InPhase(s, step.t, Arrived) && !Held(s, s.active[step.t].key) {
      forall u | u in s.active && s.active[u].own.Some? ensures s.active[u].key != s.active[step.t].key {
        assert !Holds(s, u, s.active[step.t].key);
      }
    }
  }

  lemma NextKeepsTxs(s: State, step: Step)
    requires OneHolder(s) && TxsFit(s)
    ensures TxsFit(Next(s, step))
  {
    var s' := Next(s, step);
    forall t | t in s'.active ensures TxFits(s'.table, s'.active[t]) {
      if t in s.active {
        assert TxFits(s.table, s.active[t]);
        assert s.active[t].own.Some? ==> Holds(s, t, s.active[t].key);
      }
    }
  }

  /** Entries keep their original as long as no later reply runs the handler for their owner. */
  lemma OriginalPersists(log: seq<Reply>, r: Reply, k: string, e: Entry)
    requires HasOriginal(log, k, e) && !RanFor(r, k, e.owner)
    ensures HasOriginal(log + [r], k, e)
  {
    var i: nat :| IsOriginal(log, i, k, e);
    assert IsOriginal(log + [r], i, k, e);
  }

  lemma FirstIsOriginal(log: seq<Reply>, r: Reply, k: string, e: Entry)
    requires forall i: nat :: i < |log| ==> !RanFor(log[i], k, e.owner)
    requires RanFor(r, k, e.owner) && r.hash == e.hash && Matches(e.response, r.outcome.response)
    ensures HasOriginal(log + [r], k, e)
  {
    assert IsOriginal(log + [r], |log|, k, e);
  }

  lemma CommitKeepsEntries(s: State, t: nat)
    requires Inv(s) && t in s.active && s.active[t].phase.Handled?
    ensures EntriesFit(Next(s, Commit(t)))
  {
    var tx := s.active[t];
    var r := ReplyOf(tx, Fresh(tx.phase.response));
    var s' := Next(s, Commit(t));
    assert TxFits(s.table, tx);
    forall k | k in s'.table ensures k != "" && HasOriginal(s'.log, k, s'.table[k]) {
      if k == tx.key && tx.own.Some? {
        forall i: nat | i < |s.log| ensures !RanFor(s.log[i], k, tx.owner) {
          assert ReplyFits(s.table, s.log[i]);
        }
        FirstIsOriginal(s.log, r, k, tx.own.value);
      } else {
        OriginalPersists(s.log, r, k, s.table[k]);
      }
    }
  }

  lemma NextKeepsEntries(s: State, step: Step)
    requires Inv(s)
    ensures EntriesFit(Next(s, step))
  {
    var s' := Next(s, step);
    if step.Commit? {
      if step.t in s.active && s.active[step.t].phase.Handled? { CommitKeepsEntries(s, step.t); }
    } else if s'.log != s.log {
      var r := s'.log[|s.log|];
      assert s'.log == s.log + [r];
      forall k | k in s'.table ensures k != "" && HasOriginal(s'.log, k, s'.table[k]) {
        OriginalPersists(s.log, r, k, s.table[k]);
      }
    }
  }

  lemma NextKeepsReplies(s: State, step: Step)
    requires TxsFit(s) && RepliesFit(s)
    ensures RepliesFit(Next(s, step))
  {
    var s' := Next(s, step);
    NextEvolves(s, step);
    if !step.Arrive? && step.t in s.active { assert TxFits(s.table, s.active[step.t]); }
    forall i: nat | i < |s'.log| ensures ReplyFits(s'.table, s'.log[i]) {
      if i < |s.log| { assert ReplyFits(s.table, s.log[i]); }
    }
  }

  lemma NextKeepsInv(s: State, step: Step)
    requires Inv(s)
    ensures Inv(Next(s, step))
  {
    NextKeepsHolder(s, step);
    NextKeepsTxs(s, step);
    NextKeepsEntries(s, step);
    NextKeepsReplies(s, step);
  }

  lemma {:induction false} RunKeepsInv(s: State, steps: seq<Step>)
    requires Inv(s)
    ensures Inv(Run(s, steps))
    decreases |steps|
  {
    if steps != [] {
      NextKeepsInv(s, steps[0]);
      RunKeepsInv(Next(s, steps[0]), steps[1..]);
    }
  }

  lemma {:induction false} RunEvolves(s: State, steps: seq<Step>)
    requires Inv(s)
    ensures Evolves(s, Run(s, steps))
    decreases |steps|
  {
    if steps != [] {
      NextEvolves(s, steps[0]);
      NextKeepsInv(s, steps[0]);
      RunEvolves(Next(s, steps[0]), steps[1..]);
    }
  }

  lemma {:induction false} RunConcat(s: State, a: seq<Step>, b: seq<Step>)
    ensures Run(s, a + b) == Run(Run(s, a), b)
    decreases |a|
  {
    if a == [] {
      assert a + b == b;
    } else {
      assert (a + b)[1..] == a[1..] + b;
      RunConcat(Next(s, a[0]), a[1..], b);
    }
  }

  /// ## Main results over every interleaving

  /**
   * The handler's effects commit at most once for the owner of a key: two committed
   * runs under one key belong to a caller the key's row is hidden from.
   */
  lemma EffectsHappenOnce(steps: seq<Step>, k: string, o: Owner, i: nat, j: nat)
    requires k != "" && i < |Run(EMPTY, steps).log| && j < |Run(EMPTY, steps).log|
    requires RanFor(Run(EMPTY, steps).log[i], k, o) && RanFor(Run(EMPTY, steps).log[j], k, o)
    ensures k in Run(EMPTY, steps).table
    ensures i == j || Run(EMPTY, steps).table[k].owner != o
  {
    var s := Run(EMPTY, steps);
    RunKeepsInv(EMPTY, steps);
    assert ReplyFits(s.table, s.log[i]);
    var n: nat :| IsOriginal(s.log, n, k, s.table[k]);
  }

  /** Every replay repeats the response of the one run of the handler, made by the same owner with the same hash. */
  lemma ReplaysRepeatTheOriginal(steps: seq<Step>, i: nat)
    requires i < |Run(EMPTY, steps).log| && Run(EMPTY, steps).log[i].outcome.Replayed?
    ensures var log := Run(EMPTY, steps).log;
            exists n: nat ::
              && n < |log| && log[n].key == log[i].key && log[n].owner == log[i].owner && log[n].hash == log[i].hash
              && log[n].outcome == Fresh(log[i].outcome.response)
  {
    var s := Run(EMPTY, steps);
    RunKeepsInv(EMPTY, steps);
    assert ReplyFits(s.table, s.log[i]);
    var n: nat :| IsOriginal(s.log, n, s.log[i].key, s.table[s.log[i].key]);
    assert s.log[n].outcome == Fresh(s.log[i].outcome.response);
  }

  /** A key is held by at most one open transaction, and never once it is committed. */
  lemma HeldByOne(steps: seq<Step>, k: string, t: nat, u: nat)
    requires Holds(Run(EMPTY, steps), t, k)
    ensures k !in Run(EMPTY, steps).table
    ensures Holds(Run(EMPTY, steps), u, k) ==> u == t
  {
    RunKeepsInv(EMPTY, steps);
    assert TxFits(Run(EMPTY, steps).table, Run(EMPTY, steps).active[t]);
  }

  /**
   * Once a request has committed under a key, every later reply to the key's owner is
   * fixed by the committed row: its response, a mismatch by hash, or, when its response
   * was never recorded, "still processing" for as long as the row stays.
   */
  lemma LaterRepliesAreFixed(s: State, steps: seq<Step>, k: string, i: nat)
    requires Inv(s) && k in s.table
    requires |s.log| <= i < |Run(s, steps).log|
    requires Run(s, steps).log[i].key == k && Run(s, steps).log[i].owner == s.table[k].owner
    ensures Settles(s.table[k], Run(s, steps).log[i])
  {
    RunFollows(s, steps);
    assert FollowsRow(s.table, Run(s, steps).log[i]);
  }

  predicate Settles(e: Entry, r: Reply) {
    r.outcome == Answer(e, r.hash) || r.outcome == Rejected
  }

  predicate FollowsRow(table: Table, r: Reply) {
    r.key in table && table[r.key].owner == r.owner ==>
      Settles(table[r.key], r)
  }

  predicate NewRepliesFollow(s: State, t: State) {
    |s.log| <= |t.log| && forall i: nat :: |s.log| <= i < |t.log| ==> FollowsRow(s.table, t.log[i])
  }

  lemma NewReply(s: State, step: Step)
    requires TxsFit(s) && EntriesFit(s)
    ensures NewRepliesFollow(s, Next(s, step))
  {
    if !step.Arrive? && step.t in s.active { assert TxFits(s.table, s.active[step.t]); }
  }

  lemma {:induction false} RunFollows(s: State, steps: seq<Step>)
    requires Inv(s)
    ensures NewRepliesFollow(s, Run(s, steps))
    decreases |steps|
  {
    if steps != [] {
      var t := Next(s, steps[0]);
      NextEvolves(s, steps[0]);
      NextKeepsInv(s, steps[0]);
      NewReply(s, steps[0]);
      RunEvolves(t, steps[1..]);
      RunFollows(t, steps[1..]);
    }
  }

  /**
   * The same in full, for keys that are well formed: another hash is a mismatch, a
   * recorded response is replayed exactly, and an unrecorded one stays in flight.
   */
  lemma RecordedIsReplayed(before: seq<Step>, after: seq<Step>, k: string, i: nat)
    requires k in Run(EMPTY, before).table
    requires |Run(EMPTY, before).log| <= i < |Run(Run(EMPTY, before), after).log|
    requires var r := Run(Run(EMPTY, before), after).log[i];
             r.key == k && r.owner == Run(EMPTY, before).table[k].owner && r.outcome != Rejected
    ensures var e := Run(EMPTY, before).table[k];
            var r := Run(Run(EMPTY, before), after).log[i];
            && (r.outcome == Mismatch <==> r.hash != e.hash)
            && (forall response ::
                  r.outcome == Replayed(response) <==> r.hash == e.hash && e.response == Some(response))
            && (r.outcome == InFlight <==> r.hash == e.hash && e.response == None)
  {
    RunKeepsInv(EMPTY, before);
    LaterRepliesAreFixed(Run(EMPTY, before), after, k, i);
  }

  /** A handler that fails, or whose request dies, leaves no reservation: the next request runs its own. */
  lemma FailureFreesTheKey(s: State, t: nat, u: nat, crash: bool)
    requires Inv(s) && t in s.active && s.active[t].own.Some? && u in s.active && u != t
    requires s.active[u].phase == Arrived && s.active[u].key == s.active[t].key
    requires crash || s.active[t].phase == Handling
    ensures var s' := Next(s, if crash then Crash(t) else Fail(t));
            && s'.table == s.table && !Held(s', s.active[t].key)
            && Next(s, Insert(u)) == s
            && Holds(Next(s', Insert(u)), u, s.active[t].key)
            && InPhase(Next(s', Insert(u)), u, Handling)
  {
    var k := s.active[t].key;
    var s' := Next(s, if crash then Crash(t) else Fail(t));
    assert TxFits(s.table, s.active[t]);
    assert Held(s, k);
    forall v: nat ensures !Holds(s', v, k) {
      if Holds(s', v, k) { assert Holds(s, v, k) && v != t; }
    }
  }

  /// ## When the guarantee holds

  /** A request of owner `o` that finds the key taken by another owner runs its handler unguarded. */
  function HiddenRun(t: nat, o: Owner, k: string, hash: string, r: Response): (result: seq<Step>) {
    [Arrive(t, o, true, k, hash), Insert(t), Read(t), Succeed(t, r), Commit(t)]
  }

  lemma HiddenRunCommits(s: State, t: nat, o: Owner, k: string, hash: string, r: Response)
    requires Inv(s) && t !in s.active && WellFormedKey(k) && k in s.table && s.table[k].owner != o
    ensures Run(s, HiddenRun(t, o, k, hash, r)) == s.(log := s.log + [Reply(o, k, hash, Fresh(r))])
  {
    ArriveInsertRead(s, t, o, k, hash);
    var tx := Tx(o, k, hash, Handling, None);
    var start := [Arrive(t, o, true, k, hash), Insert(t), Read(t)];
    var rest := HandlerSteps(t, Some(r), false);
    HandlerRun(s, t, tx, Some(r), false);
    RunConcat(s, start, rest);
    assert start + rest == HiddenRun(t, o, k, hash, r);
  }

  /// ### One request's steps, with nothing in between

  /** State `s` with transaction `t` open. */
  function With(s: State, t: nat, tx: Tx): (r: State) {
    s.(active := s.active[t := tx])
  }

  function TxAfterRead(table: Table, o: Owner, k: string, hash: string): (r: Tx) {
    Tx(o, k, hash, Handling, if k in table then None else Some(Entry(o, hash, None)))
  }

  lemma ReadStep(s: State, t: nat, tx: Tx)
    requires t !in s.active && tx.phase == Conflicted
    ensures Next(With(s, t, tx), Read(t)) ==
            match Visible(s.table, tx.owner, tx.key)
            case None => With(s, t, tx.(phase := Handling))
            case Some(e) => s.(log := s.log + [ReplyOf(tx, Answer(e, tx.hash))])
  {
    var s1 := With(s, t, tx);
    assert s1.active - {t} == s.active;
  }

  lemma ThreeSteps(s: State, a: Step, b: Step, c: Step)
    ensures Run(s, [a, b, c]) == Run(Run(Run(s, [a]), [b]), [c])
  {
    assert [a, b, c] == [a] + ([b] + [c]);
    RunConcat(s, [a], [b] + [c]);
    RunConcat(Run(s, [a]), [b], [c]);
  }

  lemma OneStep(s: State, step: Step)
    ensures Run(s, [step]) == Next(s, step)
  {
    assert [step][1..] == [];
  }

  lemma ArriveInsertRead(s: State, t: nat, o: Owner, k: string, hash: string)
    requires t !in s.active && WellFormedKey(k) && !Held(s, k)
    ensures Run(s, [Arrive(t, o, true, k, hash), Insert(t), Read(t)]) ==
            match Visible(s.table, o, k)
            case Some(e) => s.(log := s.log + [Reply(o, k, hash, Answer(e, hash))])
            case None => With(s, t, TxAfterRead(s.table, o, k, hash))
  {
    var tx := Tx(o, k, hash, Arrived, None);
    ThreeSteps(s, Arrive(t, o, true, k, hash), Insert(t), Read(t));
    OneStep(s, Arrive(t, o, true, k, hash));
    var s1 := With(s, t, tx);
    OneStep(s1, Insert(t));
    if k in s.table {
      OneStep(With(s, t, tx.(phase := Conflicted)), Read(t));
      ReadStep(s, t, tx.(phase := Conflicted));
    } else {
      OneStep(With(s, t, TxAfterRead(s.table, o, k, hash)), Read(t));
    }
  }

  function HandlerSteps(t: nat, handler: Option<Response>, recorded: bool): (r: seq<Step>) {
    match handler
    case None => [Fail(t)]
    case Some(r) => if recorded then [Succeed(t, r), Record(t), Commit(t)] else [Succeed(t, r), Commit(t)]
  }

  lemma SucceedStep(s: State, t: nat, tx: Tx, r: Response)
    requires t !in s.active && tx.phase == Handling
    ensures Next(With(s, t, tx), Succeed(t, r)) == With(s, t, tx.(phase := Handled(r)))
  {
  }

  function Final(own: Option<Entry>, handler: Option<Response>, recorded: bool): (r: Option<Entry>) {
    if own.Some? && recorded then Some(own.value.(response := handler)) else own
  }

  lemma HandlerRun(s: State, t: nat, tx: Tx, handler: Option<Response>, recorded: bool)
    requires t !in s.active && tx.phase == Handling
    ensures Run(With(s, t, tx), HandlerSteps(t, handler, recorded)) ==
            State(if handler.Some? && tx.own.Some?
                  then s.table[tx.key := Final(tx.own, handler, recorded).value] else s.table,
                  s.active,
                  s.log + [ReplyOf(tx, if handler.Some? then Fresh(handler.value) else Failed)])
  {
    match handler
    case None =>
      OneStep(With(s, t, tx), Fail(t));
      assert With(s, t, tx).active - {t} == s.active;
    case Some(r) =>
      var handled := tx.(phase := Handled(r));
      SucceedStep(s, t, tx, r);
      OneStep(With(s, t, tx), Succeed(t, r));
      var last := if recorded then handled.(own := Final(tx.own, handler, true)) else handled;
      OneStep(With(s, t, last), Commit(t));
      if recorded {
        OneStep(With(s, t, handled), Record(t));
        ThreeSteps(With(s, t, tx), Succeed(t, r), Record(t), Commit(t));
      } else {
        RunConcat(With(s, t, tx), [Succeed(t, r)], [Commit(t)]);
      }
  }

  /// ### The condition

  predicate RunsAtMostOnce(s: State, k: string, o: Owner) {
    forall i: nat, j: nat :: i < |s.log| && j < |s.log| && RanFor(s.log[i], k, o) && RanFor(s.log[j], k, o) ==> i == j
  }

  /**
   * Exactly when a taken key protects a caller: when the caller owns the row. For any
   * other caller some continuation commits the handler's effects twice.
   */
  lemma ProtectedIffOwner(s: State, k: string, o: Owner, t: nat)
    requires Inv(s) && WellFormedKey(k) && k in s.table && t !in s.active
    ensures (forall steps :: RunsAtMostOnce(Run(s, steps), k, o)) <==> s.table[k].owner == o
  {
    if s.table[k].owner == o {
      forall steps ensures RunsAtMostOnce(Run(s, steps), k, o) {
        RunKeepsInv(s, steps);
        RunEvolves(s, steps);
        assert HasOriginal(Run(s, steps).log, k, s.table[k]);
      }
    } else {
      var r := Response(201, "");
      var once := HiddenRun(t, o, k, "", r);
      HiddenRunCommits(s, t, o, k, "", r);
      var s1 := Run(s, once);
      RunKeepsInv(s, once);
      HiddenRunCommits(s1, t, o, k, "", r);
      RunConcat(s, once, once);
      var s2 := Run(s, once + once);
      assert RanFor(s2.log[|s.log|], k, o) && RanFor(s2.log[|s.log| + 1], k, o);
      assert !RunsAtMostOnce(s2, k, o);
    }
  }

  /** Only callers of partition `o` have used key `k`. */
  predicate UsedOnlyBy(s: State, k: string, o: Owner) {
    && (k in s.table ==> s.table[k].owner == o)
    && forall t <- s.active :: TxOnlyBy(s.active[t], k, o)
  }

  predicate TxOnlyBy(tx: Tx, k: string, o: Owner) {
    tx.key == k ==> tx.owner == o && (tx.own.Some? ==> tx.own.value.owner == o)
  }

  predicate ArrivesOnlyFrom(step: Step, k: string, o: Owner) {
    step.Arrive? && step.key == k ==> step.owner == o
  }

  lemma {:induction false} RunUsedOnlyBy(s: State, steps: seq<Step>, k: string, o: Owner)
    requires UsedOnlyBy(s, k, o)
    requires forall step <- steps :: ArrivesOnlyFrom(step, k, o)
    ensures UsedOnlyBy(Run(s, steps), k, o)
    decreases |steps|
  {
    if steps != [] {
      assert steps[0] in steps;
      RunUsedOnlyBy(Next(s, steps[0]), steps[1..], k, o);
    }
  }

  /** A key used by one tenant and mode only: whatever the interleaving, its effects commit at most once. */
  lemma OnePartitionRunsOnce(steps: seq<Step>, k: string, o: Owner)
    requires k != "" && forall step <- steps :: ArrivesOnlyFrom(step, k, o)
    ensures RunsAtMostOnce(Run(EMPTY, steps), k, o)
  {
    RunUsedOnlyBy(EMPTY, steps, k, o);
    var log := Run(EMPTY, steps).log;
    forall i: nat, j: nat | i < |log| && j < |log| && RanFor(log[i], k, o) && RanFor(log[j], k, o) ensures i == j {
      EffectsHappenOnce(steps, k, o, i, j);
    }
  }

  /// ## One request from start to end

  /** The committed table after one request alone; `handler` is None when the handler fails. */
  function TableAfter(table: Table, o: Owner, k: string, hash: string,
                      handler: Option<Response>, recorded: bool): (r: Table)
  {
    if !WellFormedKey(k) || k in table || handler.None? then table
    else table[k := Entry(o, hash, if recorded then handler else None)]
  }

  function OutcomeOf(table: Table, o: Owner, apiKey: bool, k: string, hash: string, handler: Option<Response>)
    : (r: Outcome)
  {
    if k == "" && !apiKey then HandlerOutcome(handler)
    else if !WellFormedKey(k) then Rejected
    else
      match Visible(table, o, k)
      case Some(e) => Answer(e, hash)
      case None => HandlerOutcome(handler)
  }

  /** What the handler makes of a request that reaches it. */
  function HandlerOutcome(handler: Option<Response>): (r: Outcome) {
    if handler.Some? then Fresh(handler.value) else Failed
  }

  datatype Lookup = New | Settled(outcome: Outcome)

  /** The key table, as one request's transaction changes it. */
  class IdempotencyKeys {
    var table: Table

    constructor ()
      ensures table == map[]
    {
      table := map[];
    }

    method LookupOrReserve(o: Owner, key: string, hash: string) returns (found: Lookup)
      modifies this
      ensures table == if key in old(table) then old(table) else old(table)[key := Entry(o, hash, None)]
      ensures found == match Visible(old(table), o, key)
                       case None => New
                       case Some(e) => Settled(Answer(e, hash))
    {
      if key !in table {
        table := table[key := Entry(o, hash, None)];
        return New;
      }
      var existing := Visible(table, o, key);
      if existing.None? { return New; }
      if existing.value.hash != hash { return Settled(Mismatch); }
      if existing.value.response.None? { return Settled(InFlight); }
      return Settled(Replayed(existing.value.response.value));
    }

    method RecordResponse(o: Owner, key: string, response: Response)
      modifies this
      ensures table == match Visible(old(table), o, key)
                       case None => old(table)
                       case Some(e) => old(table)[key := e.(response := Some(response))]
    {
      if Visible(table, o, key).Some? {
        table := table[key := table[key].(response := Some(response))];
      }
    }

    /** The whole request; a failing handler rolls the transaction back. Without a key only callers with
        an API key are refused. */
    method Intercept(o: Owner, apiKey: bool, key: string, hash: string, handler: Option<Response>, recorded: bool)
      returns (outcome: Outcome)
      modifies this
      ensures table == TableAfter(old(table), o, key, hash, handler, recorded)
      ensures outcome == OutcomeOf(old(table), o, apiKey, key, hash, handler)
    {
      if key == "" {
        if apiKey { return Rejected; }
        return HandlerOutcome(handler);
      }
      if !WellFormedKey(key) { return Rejected; }
      var before := table;
      var found := LookupOrReserve(o, key, hash);
      if found.Settled? { return found.outcome; }
      match handler {
        case None =>
          table := before;
          return Failed;
        case Some(r) =>
          if recorded { RecordResponse(o, key, r); }
          assert table == TableAfter(old(table), o, key, hash, handler, recorded);
          return Fresh(r);
      }
    }
  }

  /** What `Intercept` does, the state machine does when no other request comes in between. */
  lemma InterceptIsARun(s: State, t: nat, o: Owner, apiKey: bool, k: string, hash: string,
                        handler: Option<Response>, recorded: bool)
    requires Inv(s) && t !in s.active && !Held(s, k)
    ensures exists steps ::
              && Run(s, steps).table == TableAfter(s.table, o, k, hash, handler, recorded)
              && Run(s, steps).log == s.log + [Reply(o, k, hash, OutcomeOf(s.table, o, apiKey, k, hash, handler))]
              && Run(s, steps).active == s.active
  {
    if k == "" && !apiKey {
      var rest := HandlerSteps(t, handler, false);
      var tx := Tx(o, k, hash, Handling, None);
      OneStep(s, Arrive(t, o, apiKey, k, hash));
      HandlerRun(s, t, tx, handler, false);
      RunConcat(s, [Arrive(t, o, apiKey, k, hash)], rest);
      assert Run(s, [Arrive(t, o, apiKey, k, hash)] + rest).active == s.active;
    } else if !WellFormedKey(k) {
      OneStep(s, Arrive(t, o, apiKey, k, hash));
      assert Run(s, [Arrive(t, o, apiKey, k, hash)]).active == s.active;
    } else {
      KeyedIsARun(s, t, o, k, hash, handler, recorded);
    }
  }

  lemma KeyedIsARun(s: State, t: nat, o: Owner, k: string, hash: string, handler: Option<Response>, recorded: bool)
    requires Inv(s) && t !in s.active && WellFormedKey(k) && !Held(s, k)
    ensures exists steps ::
              && Run(s, steps).table == TableAfter(s.table, o, k, hash, handler, recorded)
              && Run(s, steps).log == s.log + [Reply(o, k, hash, OutcomeOf(s.table, o, true, k, hash, handler))]
              && Run(s, steps).active == s.active
  {
    var start := [Arrive(t, o, true, k, hash), Insert(t), Read(t)];
    ArriveInsertRead(s, t, o, k, hash);
    if Visible(s.table, o, k).None? {
      var tx := TxAfterRead(s.table, o, k, hash);
      var rest := HandlerSteps(t, handler, recorded);
      HandlerRun(s, t, tx, handler, recorded);
      RunConcat(s, start, rest);
      assert Run(s, start + rest).table == TableAfter(s.table, o, k, hash, handler, recorded);
    } else {
      assert Run(s, start).table == TableAfter(s.table, o, k, hash, handler, recorded);
    }
  }

  /// ## Keys that are missing or malformed

  /** Eight to two hundred letters, digits and the four marks. */
  predicate Acceptable(key: string) {
    && 8 <= |key| <= 200
    && forall i :: 0 <= i < |key| ==>
         65 <= key[i] as int <= 90 || 97 <= key[i] as int <= 122 || 48 <= key[i] as int <= 57
         || key[i] in {'_', '-', ':', '.'}
  }

  lemma AcceptableIff(key: string)
    ensures Acceptable(key) <==> WellFormedKey(key)
  {
    forall i | 0 <= i < |key|
      ensures KeyChar(key[i]) <==>
        65 <= key[i] as int <= 90 || 97 <= key[i] as int <= 122 || 48 <= key[i] as int <= 57
        || key[i] in {'_', '-', ':', '.'}
    {
      assert key[i] in key;
    }
  }

  /** A caller with an API key and without an idempotency key is refused at once, and any other caller
      without one goes straight to the handler: no row is looked at, reserved or kept for them. */
  lemma MissingKey(s: State, t: nat, o: Owner, apiKey: bool, hash: string)
    requires t !in s.active
    ensures Next(s, Arrive(t, o, apiKey, "", hash)) ==
      if apiKey then State(s.table, s.active, s.log + [Reply(o, "", hash, Rejected)])
      else State(s.table, s.active[t := Tx(o, "", hash, Handling, None)], s.log)
  {
  }

  predicate KeyMayRun(tx: Tx) {
    tx.key == "" || Acceptable(tx.key)
  }

  predicate RefusalFits(r: Reply) {
    r.key != "" ==> (r.outcome == Rejected <==> !Acceptable(r.key))
  }

  lemma {:induction false} RunRefusals(s: State, steps: seq<Step>)
    requires forall t <- s.active :: KeyMayRun(s.active[t])
    requires forall i :: 0 <= i < |s.log| ==> RefusalFits(s.log[i])
    ensures forall i :: 0 <= i < |Run(s, steps).log| ==> RefusalFits(Run(s, steps).log[i])
    decreases |steps|
  {
    if steps != [] {
      if steps[0].Arrive? { AcceptableIff(steps[0].key); }
      RunRefusals(Next(s, steps[0]), steps[1..]);
    }
  }

  /** Over every interleaving: a request with a key is refused for it exactly when the key is malformed. */
  lemma RefusedIffMalformed(steps: seq<Step>, i: nat)
    requires i < |Run(EMPTY, steps).log| && Run(EMPTY, steps).log[i].key != ""
    ensures Run(EMPTY, steps).log[i].outcome == Rejected <==> !Acceptable(Run(EMPTY, steps).log[i].key)
  {
    RunRefusals(EMPTY, steps);
    assert RefusalFits(Run(EMPTY, steps).log[i]);
  }

  /** A request without a key leaves no trace in the table, whatever its handler does and whatever the
      other requests do: it never holds a row, and no row is ever kept under its key. */
  lemma UnkeyedLeavesNoRow(steps: seq<Step>, t: nat)
    requires var s := Run(EMPTY, steps); t in s.active && s.active[t].key == ""
    ensures var s := Run(EMPTY, steps); s.active[t].own == None && "" !in s.table
  {
    RunKeepsInv(EMPTY, steps);
    assert TxFits(Run(EMPTY, steps).table, Run(EMPTY, steps).active[t]);
  }
}
