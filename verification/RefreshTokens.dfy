/**
 * Refresh-token families: rotation, reuse detection, a grace window, sliding
 * and absolute lifetimes (section 4.14 of RFC 9700).
 *
 * A token is the position of its row, which stands for its unique hash; a
 * family is named by the position of its first row, which stands for the random
 * family id. A refresh reads first and writes later, and revoking the family after
 * a detected reuse comes later still; any other request may come in between.
 */
module RefreshTokens {
  import opened Options

  const DAY_MS := 86_400_000
  const REFRESH_SLIDING_MS := 30 * DAY_MS
  const REFRESH_ABSOLUTE_MS := 90 * DAY_MS
  const REFRESH_REUSE_GRACE_MS := 10_000

  datatype Token = Token(
    userId: string, family: nat, parent: Option<nat>,
    createdAt: int, expiresAt: int, absoluteExpiresAt: int,
    revokedAt: Option<int>, replacedAt: Option<int>, reusedAt: Option<int>)

  datatype Outcome =
    | Rotated(child: nat) | InProgress | ReuseDetected(family: nat)
    | AbsoluteExpired | Expired | UserInactive | Invalid

  type Rows = seq<Token>

  /// ## The steps

  function Issue(rows: Rows, userId: string, now: int): (r: Rows) {
    rows + [Token(userId, |rows|, None, now, now + REFRESH_SLIDING_MS, now + REFRESH_ABSOLUTE_MS, None, None, None)]
  }

  predicate LiveChild(rows: Rows, parent: nat, c: nat) {
    c < |rows| && rows[c].parent == Some(parent) && rows[c].revokedAt == None
  }

  predicate HasLiveChild(rows: Rows, parent: nat) {
    exists c: nat :: c < |rows| && LiveChild(rows, parent, c)
  }

  predicate WithinGrace(rows: Rows, t: nat, now: int)
    requires t < |rows|
  {
    && HasLiveChild(rows, t)
    && now - (if rows[t].replacedAt.Some? then rows[t].replacedAt.value else 0) < REFRESH_REUSE_GRACE_MS
  }

  /** What presenting token `t` at `now` is answered with. */
  function Diagnose(rows: Rows, t: nat, now: int, userActive: bool): (r: Outcome) {
    if t >= |rows| then Invalid
    else if rows[t].revokedAt.Some? then
      if WithinGrace(rows, t, now) then InProgress else ReuseDetected(rows[t].family)
    else if rows[t].absoluteExpiresAt < now then AbsoluteExpired
    else if rows[t].expiresAt < now then Expired
    else if !userActive then UserInactive
    else Rotated(|rows|)
  }

  function Child(rows: Rows, t: nat, now: int): (r: Token)
    requires t < |rows|
  {
    Token(rows[t].userId, rows[t].family, Some(t), now, now + REFRESH_SLIDING_MS, rows[t].absoluteExpiresAt,
      None, None, None)
  }

  function Rotate(rows: Rows, t: nat, now: int): (r: Rows)
    requires t < |rows|
  {
    rows[t := rows[t].(revokedAt := Some(now), replacedAt := Some(now))] + [Child(rows, t, now)]
  }

  /** The first phase of a refresh: diagnose, and rotate when that is the answer. */
  function Refreshed(rows: Rows, t: nat, now: int, userActive: bool): (r: (Rows, Outcome)) {
    var outcome := Diagnose(rows, t, now, userActive);
    (if outcome.Rotated? then Rotate(rows, t, now) else rows, outcome)
  }

  predicate Targeted(a: Token, family: nat, owner: Option<string>) {
    a.family == family && a.revokedAt == None && (owner.Some? ==> a.userId == owner.value)
  }

  function RevokeRow(a: Token, family: nat, owner: Option<string>, reused: bool, now: int): (r: Token) {
    if Targeted(a, family, owner) then
      a.(revokedAt := Some(now), reusedAt := if reused then Some(now) else a.reusedAt)
    else a
  }

  /** The bulk revoke behind the second phase, logout and `RevokeSession`. */
  function Revoke(rows: Rows, family: nat, owner: Option<string>, reused: bool, now: int): (r: Rows) {
    seq(|rows|, i requires 0 <= i < |rows| => RevokeRow(rows[i], family, owner, reused, now))
  }

  /// ## Runs

  /** `Read` and `Write` are the two ends of a refresh's transaction: what it reads is as committed
      then, and its child row and the parent's marks are committed together later. The transaction
      asks for no isolation level, so anything may be committed in between. A `Read` that does not
      lead to a rotation ends the transaction at once; `Abort` stands for one that dies.

      `Phase2` may be taken once for every reuse that was detected; logout acts on the family of the
      token it is given, and a user revokes only their own sessions. */
  datatype Event =
    | NewSession(userId: string, now: int)
    | Read(request: nat, token: nat, now: int, userActive: bool)
    | Write(request: nat)
    | Abort(request: nat)
    | Phase2(family: nat, now: int)
    | Logout(token: nat, now: int)
    | RevokeSession(userId: string, family: nat, now: int)

  /** A refresh that has found its token good at `now` and has not committed yet. */
  datatype Rotation = Rotation(token: nat, now: int)

  /** `open` holds the rotations in flight, `pending` the reuse detections whose family revoke has
      not run yet. */
  datatype State = State(rows: Rows, open: map<nat, Rotation>, pending: multiset<nat>)

  function Next(s: State, e: Event): (r: State) {
    match e
    case NewSession(userId, now) => s.(rows := Issue(s.rows, userId, now))
    case Read(r, token, now, userActive) =>
      if r in s.open then s
      else
        var outcome := Diagnose(s.rows, token, now, userActive);
        if outcome.Rotated? then s.(open := s.open[r := Rotation(token, now)])
        else if outcome.ReuseDetected? then s.(pending := s.pending + multiset{outcome.family})
        else s
    case Write(r) =>
      if r in s.open && s.open[r].token < |s.rows| then
        s.(rows := Rotate(s.rows, s.open[r].token, s.open[r].now), open := s.open - {r})
      else s
    case Abort(r) => s.(open := s.open - {r})
    case Phase2(family, now) =>
      if family !in s.pending then s
      else s.(rows := Revoke(s.rows, family, None, true, now), pending := s.pending - multiset{family})
    case Logout(token, now) =>
      if token >= |s.rows| then s else s.(rows := Revoke(s.rows, s.rows[token].family, None, false, now))
    case RevokeSession(userId, family, now) => s.(rows := Revoke(s.rows, family, Some(userId), false, now))
  }

  function Run(s: State, events: seq<Event>): (r: State)
    decreases |events|
  {
    if events == [] then s else Run(Next(s, events[0]), events[1..])
  }

  const START := State([], map[], multiset{})

  /// ## What every interleaving keeps: families are trees

  predicate RootOf(rows: Rows, i: nat)
    requires i < |rows|
  {
    rows[i].parent == None ==>
      rows[i].family == i && rows[i].absoluteExpiresAt == rows[i].createdAt + REFRESH_ABSOLUTE_MS
  }

  /** A parent is an earlier row of the same family, and was replaced within its lifetimes. */
  predicate HangsUnder(rows: Rows, i: nat)
    requires i < |rows|
  {
    rows[i].parent.Some? ==>
      var p := rows[i].parent.value;
      && p < i
      && rows[p].family == rows[i].family
      && rows[p].userId == rows[i].userId
      && rows[p].absoluteExpiresAt == rows[i].absoluteExpiresAt
      && rows[i].createdAt <= rows[p].expiresAt
      && rows[i].createdAt <= rows[p].absoluteExpiresAt
  }

  predicate ChildOf(rows: Rows, p: nat, c: nat) {
    c < |rows| && rows[c].parent == Some(p)
  }

  ghost predicate HasChild(rows: Rows, p: nat) {
    exists c: nat :: ChildOf(rows, p, c)
  }

  /** `replacedAt` is the instant at which some child of the row was made. */
  ghost predicate ReplacedBy(rows: Rows, i: nat)
    requires i < |rows|
  {
    && (HasChild(rows, i) ==> rows[i].replacedAt.Some?)
    && (rows[i].replacedAt.Some? ==>
          && rows[i].revokedAt.Some?
          && exists c: nat :: ChildOf(rows, i, c) && Some(rows[c].createdAt) == rows[i].replacedAt)
  }

  ghost predicate TreeRow(rows: Rows, i: nat)
    requires i < |rows|
  {
    && rows[i].family <= i
    && rows[rows[i].family].family == rows[i].family
    && rows[i].expiresAt == rows[i].createdAt + REFRESH_SLIDING_MS
    && RootOf(rows, i)
    && HangsUnder(rows, i)
    && ReplacedBy(rows, i)
  }

  ghost predicate Tree(rows: Rows) {
    forall i: nat :: i < |rows| ==> TreeRow(rows, i)
  }

  predicate OpenFits(rows: Rows, o: Rotation) {
    && o.token < |rows|
    && o.now <= rows[o.token].expiresAt
    && o.now <= rows[o.token].absoluteExpiresAt
  }

  ghost predicate Fit(s: State) {
    Tree(s.rows) && forall r <- s.open :: OpenFits(s.rows, s.open[r])
  }

  /** Rows are only added, and what a row says about its place never changes. */
  predicate SamePlace(a: Token, b: Token) {
    b == a.(revokedAt := b.revokedAt, replacedAt := b.replacedAt, reusedAt := b.reusedAt)
  }

  lemma IssueKeepsTree(rows: Rows, userId: string, now: int)
    requires Tree(rows)
    ensures Tree(Issue(rows, userId, now))
  {
    var t := Issue(rows, userId, now);
    forall i: nat | i < |t| ensures TreeRow(t, i) {
      if i < |rows| {
        assert TreeRow(rows, i);
        IssueKeepsChildren(rows, userId, now, i);
      } else {
        NoChildOfNew(rows, i);
        IssueKeepsChildren(rows, userId, now, i);
      }
    }
  }

  lemma NoChildOfNew(rows: Rows, i: nat)
    requires Tree(rows) && i >= |rows|
    ensures !HasChild(rows, i)
  {
    forall c: nat ensures !ChildOf(rows, i, c) {
      if c < |rows| { assert TreeRow(rows, c); }
    }
  }

  lemma IssueKeepsChildren(rows: Rows, userId: string, now: int, p: nat)
    ensures forall c: nat :: ChildOf(Issue(rows, userId, now), p, c) <==> ChildOf(rows, p, c)
    ensures HasChild(Issue(rows, userId, now), p) <==> HasChild(rows, p)
  {
    var t := Issue(rows, userId, now);
    if HasChild(rows, p) {
      var c: nat :| ChildOf(rows, p, c);
      assert ChildOf(t, p, c);
    }
  }

  lemma RevokeKeepsTree(rows: Rows, family: nat, owner: Option<string>, reused: bool, now: int)
    requires Tree(rows)
    ensures Tree(Revoke(rows, family, owner, reused, now))
  {
    var t := Revoke(rows, family, owner, reused, now);
    forall i: nat | i < |t| ensures TreeRow(t, i) {
      assert TreeRow(rows, i);
      assert forall c: nat :: ChildOf(t, i, c) <==> ChildOf(rows, i, c);
      RevokeKeepsReplaced(rows, family, owner, reused, now, i);
    }
  }

  lemma RevokeKeepsReplaced(rows: Rows, family: nat, owner: Option<string>, reused: bool, now: int, i: nat)
    requires i < |rows| && ReplacedBy(rows, i)
    ensures ReplacedBy(Revoke(rows, family, owner, reused, now), i)
  {
    var t := Revoke(rows, family, owner, reused, now);
    assert forall c: nat :: ChildOf(t, i, c) <==> ChildOf(rows, i, c);
    if rows[i].replacedAt.Some? {
      var c: nat :| ChildOf(rows, i, c) && Some(rows[c].createdAt) == rows[i].replacedAt;
      assert ChildOf(t, i, c) && t[c].createdAt == rows[c].createdAt;
    }
  }

  /** Whenever it is written, a rotation within its token's lifetimes hangs its child under the token. */
  lemma RotateKeepsTree(rows: Rows, t: nat, now: int)
    requires Tree(rows) && OpenFits(rows, Rotation(t, now))
    ensures Tree(Rotate(rows, t, now))
  {
    var next := Rotate(rows, t, now);
    assert TreeRow(rows, t);
    forall i: nat | i < |next| ensures TreeRow(next, i) {
      RotateChildren(rows, t, now, i);
      if i < |rows| {
        assert TreeRow(rows, i);
        RotateKeepsReplaced(rows, t, now, i);
      } else {
        NoChildOfNew(rows, i);
      }
    }
  }

  lemma RotateChildren(rows: Rows, t: nat, now: int, p: nat)
    requires t < |rows|
    ensures forall c: nat :: ChildOf(Rotate(rows, t, now), p, c) <==> ChildOf(rows, p, c) || (p == t && c == |rows|)
  {
  }

  lemma RotateKeepsReplaced(rows: Rows, t: nat, now: int, i: nat)
    requires t < |rows| && i < |rows| && ReplacedBy(rows, i)
    ensures ReplacedBy(Rotate(rows, t, now), i)
  {
    var next := Rotate(rows, t, now);
    RotateChildren(rows, t, now, i);
    if i == t {
      assert ChildOf(next, t, |rows|) && next[|rows|].createdAt == now;
    } else {
      if HasChild(next, i) {
        var c: nat :| ChildOf(next, i, c);
        assert ChildOf(rows, i, c);
      }
      if rows[i].replacedAt.Some? {
        var c: nat :| ChildOf(rows, i, c) && Some(rows[c].createdAt) == rows[i].replacedAt;
        assert ChildOf(next, i, c) && next[c].createdAt == rows[c].createdAt;
      }
    }
  }

  lemma NextKeepsTree(s: State, e: Event)
    requires Fit(s)
    ensures Tree(Next(s, e).rows)
  {
    match e
    case NewSession(userId, now) => IssueKeepsTree(s.rows, userId, now);
    case Read(_, _, _, _) =>
    case Write(r) =>
      if r in s.open { RotateKeepsTree(s.rows, s.open[r].token, s.open[r].now); }
    case Abort(_) =>
    case Phase2(family, now) => RevokeKeepsTree(s.rows, family, None, true, now);
    case Logout(token, now) =>
      if token < |s.rows| { RevokeKeepsTree(s.rows, s.rows[token].family, None, false, now); }
    case RevokeSession(userId, family, now) => RevokeKeepsTree(s.rows, family, Some(userId), false, now);
  }

  lemma NextKeepsPlaces(s: State, e: Event)
    ensures |s.rows| <= |Next(s, e).rows|
    ensures forall i: nat :: i < |s.rows| ==> SamePlace(s.rows[i], Next(s, e).rows[i])
  {
  }

  lemma NextKeepsFit(s: State, e: Event)
    requires Fit(s)
    ensures Fit(Next(s, e))
  {
    NextKeepsTree(s, e);
    NextKeepsPlaces(s, e);
    var t := Next(s, e);
    forall r | r in t.open ensures OpenFits(t.rows, t.open[r]) {
      if r in s.open { assert OpenFits(s.rows, s.open[r]); }
    }
  }

  /** Every interleaving keeps every family a tree. */
  lemma {:induction false} RunKeepsFit(s: State, events: seq<Event>)
    requires Fit(s)
    ensures Fit(Run(s, events))
    decreases |events|
  {
    if events != [] {
      NextKeepsFit(s, events[0]);
      RunKeepsFit(Next(s, events[0]), events[1..]);
    }
  }

  /** All rows of a family share its user and one absolute expiry, 90 days after it began. */
  lemma {:induction false} FamilyShares(rows: Rows, i: nat)
    requires Tree(rows) && i < |rows|
    ensures rows[i].family <= i && rows[rows[i].family].family == rows[i].family
    ensures rows[rows[i].family].parent == None
    ensures rows[i].userId == rows[rows[i].family].userId
    ensures rows[i].absoluteExpiresAt == rows[rows[i].family].createdAt + REFRESH_ABSOLUTE_MS
    decreases i
  {
    assert TreeRow(rows, i);
    var f := rows[i].family;
    assert TreeRow(rows, f);
    assert rows[f].parent.Some? ==> TreeRow(rows, rows[f].parent.value);
    if rows[i].parent.Some? {
      FamilyShares(rows, rows[i].parent.value);
    }
  }

  /// ## When a family is one unbranched chain

  /** Some token has been replaced twice. */
  ghost predicate Forked(rows: Rows) {
    exists p: nat, c: nat, d: nat :: c < d && ChildOf(rows, p, c) && ChildOf(rows, p, d)
  }

  /** The parent of a row is the row of its family just before it. */
  ghost predicate FollowsParent(rows: Rows, i: nat)
    requires i < |rows|
  {
    rows[i].parent.Some? ==>
      && rows[i].parent.value < i
      && rows[rows[i].parent.value].replacedAt == Some(rows[i].createdAt)
      && (forall k :: rows[i].parent.value < k < i ==> rows[k].family != rows[i].family)
  }

  /** A row that was not replaced is the last of its family. */
  ghost predicate LastUnlessReplaced(rows: Rows, i: nat)
    requires i < |rows|
  {
    rows[i].replacedAt == None ==> forall k :: i < k < |rows| ==> rows[k].family != rows[i].family
  }

  ghost predicate ChainRow(rows: Rows, i: nat)
    requires i < |rows|
  {
    TreeRow(rows, i) && FollowsParent(rows, i) && LastUnlessReplaced(rows, i)
  }

  ghost predicate Inv(rows: Rows) {
    forall i: nat :: i < |rows| ==> ChainRow(rows, i)
  }

  ghost predicate Ancestor(rows: Rows, i: nat, j: nat)
    requires Tree(rows) && j < |rows|
    decreases j
  {
    i == j || (rows[j].parent.Some? && TreeRow(rows, j) && Ancestor(rows, i, rows[j].parent.value))
  }

  /** The step of a lineage right after its beginning. */
  lemma {:induction false} FirstStep(rows: Rows, i: nat, j: nat) returns (c: nat)
    requires Tree(rows) && j < |rows| && Ancestor(rows, i, j) && i != j
    ensures i < c <= j && ChildOf(rows, i, c)
    decreases j
  {
    assert TreeRow(rows, j);
    var p := rows[j].parent.value;
    if p == i {
      c := j;
    } else {
      c := FirstStep(rows, i, p);
    }
  }

  /** Without a fork every earlier row of a family is an ancestor of every later one. */
  lemma {:induction false} OneLineage(rows: Rows, i: nat, j: nat)
    requires Tree(rows) && !Forked(rows) && i <= j < |rows| && rows[i].family == rows[j].family
    ensures Ancestor(rows, i, j)
    decreases j
  {
    if i < j {
      assert TreeRow(rows, i) && TreeRow(rows, j);
      var p := rows[j].parent.value;
      if p >= i {
        OneLineage(rows, i, p);
      } else {
        OneLineage(rows, p, i);
        var c := FirstStep(rows, p, i);
        assert ChildOf(rows, p, c) && ChildOf(rows, p, j);
      }
    }
  }

  lemma UnforkedFollows(rows: Rows, i: nat)
    requires Tree(rows) && !Forked(rows) && i < |rows|
    ensures ChainRow(rows, i)
  {
    assert TreeRow(rows, i);
    if rows[i].parent.Some? {
      var p := rows[i].parent.value;
      assert TreeRow(rows, p) && ChildOf(rows, p, i);
      var c: nat :| ChildOf(rows, p, c) && Some(rows[c].createdAt) == rows[p].replacedAt;
      assert c == i;
      forall k | p < k < i ensures rows[k].family != rows[i].family {
        if rows[k].family == rows[i].family {
          OneLineage(rows, p, k);
          var d := FirstStep(rows, p, k);
        }
      }
    }
    if rows[i].replacedAt == None {
      forall k | i < k < |rows| ensures rows[k].family != rows[i].family {
        if rows[k].family == rows[i].family {
          OneLineage(rows, i, k);
          var d := FirstStep(rows, i, k);
          assert HasChild(rows, i);
        }
      }
    }
  }

  /** A family is one unbranched chain exactly when no token of the table was replaced twice. */
  lemma ChainIff(rows: Rows)
    requires Tree(rows)
    ensures Inv(rows) <==> !Forked(rows)
  {
    if !Forked(rows) {
      forall i: nat | i < |rows| ensures ChainRow(rows, i) { UnforkedFollows(rows, i); }
    } else if Inv(rows) {
      var p: nat, c: nat, d: nat :| c < d && ChildOf(rows, p, c) && ChildOf(rows, p, d);
      SingleChild(rows, p, c, d);
    }
  }

  lemma InvIsTree(rows: Rows)
    requires Inv(rows)
    ensures Tree(rows)
  {
    forall i: nat | i < |rows| ensures TreeRow(rows, i) { assert ChainRow(rows, i); }
  }

  /** A rotation forks its family exactly when its token has been replaced before. */
  lemma RotateForksIff(rows: Rows, t: nat, now: int)
    requires Tree(rows) && !Forked(rows) && t < |rows|
    ensures Forked(Rotate(rows, t, now)) <==> rows[t].replacedAt.Some?
  {
    var next := Rotate(rows, t, now);
    assert TreeRow(rows, t);
    if rows[t].replacedAt.Some? {
      var c: nat :| ChildOf(rows, t, c);
      assert ChildOf(next, t, c) && ChildOf(next, t, |rows|);
    }
    if Forked(next) {
      var p: nat, c: nat, d: nat :| c < d && ChildOf(next, p, c) && ChildOf(next, p, d);
      RotateChildren(rows, t, now, p);
      assert ChildOf(rows, p, c);
      assert ChildOf(rows, p, d) || (p == t && HasChild(rows, t));
    }
  }

  lemma ForkStays(rows: Rows, next: Rows)
    requires |rows| <= |next| && Forked(rows)
    requires forall i: nat :: i < |rows| ==> SamePlace(rows[i], next[i])
    ensures Forked(next)
  {
    var p: nat, c: nat, d: nat :| c < d && ChildOf(rows, p, c) && ChildOf(rows, p, d);
    assert ChildOf(next, p, c) && ChildOf(next, p, d);
  }

  /** The event does not write a rotation of a token that somebody else has replaced since. */
  predicate FirstToReplace(s: State, e: Event) {
    e.Write? && e.request in s.open && s.open[e.request].token < |s.rows| ==>
      s.rows[s.open[e.request].token].replacedAt == None
  }

  predicate NoDoubleWrite(s: State, events: seq<Event>)
    decreases |events|
  {
    events == [] || (FirstToReplace(s, events[0]) && NoDoubleWrite(Next(s, events[0]), events[1..]))
  }

  lemma SameChildrenNoFork(rows: Rows, next: Rows)
    requires !Forked(rows) && forall p: nat, c: nat :: ChildOf(next, p, c) ==> ChildOf(rows, p, c)
    ensures !Forked(next)
  {
  }

  lemma NextForksIff(s: State, e: Event)
    requires Fit(s) && !Forked(s.rows)
    ensures Forked(Next(s, e).rows) <==> !FirstToReplace(s, e)
  {
    if e.Write? {
      if e.request in s.open {
        assert OpenFits(s.rows, s.open[e.request]);
        RotateForksIff(s.rows, s.open[e.request].token, s.open[e.request].now);
      }
    } else {
      SameChildrenNoFork(s.rows, Next(s, e).rows);
    }
  }

  lemma {:induction false} ForkedRun(s: State, events: seq<Event>)
    requires Forked(s.rows)
    ensures Forked(Run(s, events).rows)
    decreases |events|
  {
    if events != [] {
      NextKeepsPlaces(s, events[0]);
      ForkStays(s.rows, Next(s, events[0]).rows);
      ForkedRun(Next(s, events[0]), events[1..]);
    }
  }

  lemma {:induction false} RunForksIff(s: State, events: seq<Event>)
    requires Fit(s) && !Forked(s.rows)
    ensures Forked(Run(s, events).rows) <==> !NoDoubleWrite(s, events)
    decreases |events|
  {
    if events != [] {
      NextKeepsFit(s, events[0]);
      NextForksIff(s, events[0]);
      if Forked(Next(s, events[0]).rows) {
        ForkedRun(Next(s, events[0]), events[1..]);
      } else {
        RunForksIff(Next(s, events[0]), events[1..]);
      }
    }
  }

  /** Exactly which interleavings leave every family one unbranched chain: those in which no
      rotation is written for a token that another request has replaced since it was read. */
  lemma ReachableIsChainIff(events: seq<Event>)
    ensures Inv(Run(START, events).rows) <==> NoDoubleWrite(START, events)
  {
    RunKeepsFit(START, events);
    RunForksIff(START, events);
    ChainIff(Run(START, events).rows);
  }

  /** The event does not write a rotation of a token that was revoked since it was read. */
  predicate FreshWrite(s: State, e: Event) {
    e.Write? && e.request in s.open && s.open[e.request].token < |s.rows| ==>
      s.rows[s.open[e.request].token].revokedAt == None
  }

  /** What running the first phase as one serializable transaction would enforce. */
  predicate FreshWrites(s: State, events: seq<Event>)
    decreases |events|
  {
    events == [] || (FreshWrite(s, events[0]) && FreshWrites(Next(s, events[0]), events[1..]))
  }

  lemma {:induction false} FreshWritesAreFirst(s: State, events: seq<Event>)
    requires Fit(s) && FreshWrites(s, events)
    ensures NoDoubleWrite(s, events)
    decreases |events|
  {
    if events != [] {
      var e := events[0];
      if e.Write? && e.request in s.open {
        assert OpenFits(s.rows, s.open[e.request]) && TreeRow(s.rows, s.open[e.request].token);
      }
      NextKeepsFit(s, e);
      FreshWritesAreFirst(Next(s, e), events[1..]);
    }
  }

  /** With the isolation the comment on `refresh` intends, every reachable table is chains. */
  lemma SerializableIsChain(events: seq<Event>)
    requires FreshWrites(START, events)
    ensures Inv(Run(START, events).rows)
  {
    FreshWritesAreFirst(START, events);
    ReachableIsChainIff(events);
  }

  /** In a chain every earlier row of a family is an ancestor of every later one. */
  lemma OneChain(rows: Rows, i: nat, j: nat)
    requires Inv(rows) && i <= j < |rows| && rows[i].family == rows[j].family
    ensures Tree(rows) && Ancestor(rows, i, j)
  {
    InvIsTree(rows);
    ChainIff(rows);
    OneLineage(rows, i, j);
  }

  lemma SingleChild(rows: Rows, p: nat, c: nat, d: nat)
    requires Inv(rows) && ChildOf(rows, p, c) && ChildOf(rows, p, d)
    ensures c == d
  {
    assert ChainRow(rows, c) && ChainRow(rows, d);
  }

  /** Only the last row of a family can still be unrevoked. */
  lemma OnlyLastIsLive(rows: Rows, i: nat, j: nat)
    requires Inv(rows) && i < |rows| && j < |rows| && rows[i].family == rows[j].family
    requires rows[i].revokedAt == None
    ensures j <= i
  {
    assert ChainRow(rows, i);
  }

  /// ## Reuse detection

  /** A revoked token is told to retry exactly while its one replacement is unrevoked and younger
      than the grace window. */
  lemma InProgressIff(rows: Rows, t: nat, now: int, userActive: bool)
    requires Inv(rows) && t < |rows|
    ensures Diagnose(rows, t, now, userActive) == InProgress <==>
      exists c: nat :: c < |rows| && LiveChild(rows, t, c) && now - rows[c].createdAt < REFRESH_REUSE_GRACE_MS
  {
    assert ChainRow(rows, t);
    forall c: nat | c < |rows| && LiveChild(rows, t, c)
      ensures HasChild(rows, t) && rows[t].replacedAt == Some(rows[c].createdAt)
    {
      assert ChainRow(rows, c) && ChildOf(rows, t, c);
    }
  }

  /** A token two or more rotations back is always reuse, even within the grace window. */
  lemma OldAncestorIsReuse(rows: Rows, t: nat, c: nat, d: nat, now: int, userActive: bool)
    requires Inv(rows) && ChildOf(rows, t, c) && ChildOf(rows, c, d)
    ensures t < |rows| && Diagnose(rows, t, now, userActive) == ReuseDetected(rows[d].family)
  {
    assert ChainRow(rows, c) && ChainRow(rows, d);
    assert ChainRow(rows, t);
    assert HasChild(rows, t) && HasChild(rows, c);
    forall k: nat | k < |rows| ensures !LiveChild(rows, t, k) {
      if ChildOf(rows, t, k) {
        SingleChild(rows, t, c, k);
      }
    }
  }

  /// ## Lifetimes

  /** A token is found good only within 30 days of its own issue and 90 days of the family's
      beginning, however many rotations came before. */
  lemma RotationIsInTime(rows: Rows, t: nat, now: int, userActive: bool)
    requires Tree(rows) && t < |rows|
    requires Diagnose(rows, t, now, userActive).Rotated?
    ensures now <= rows[t].createdAt + REFRESH_SLIDING_MS
    ensures rows[t].family < |rows| && now <= rows[rows[t].family].createdAt + REFRESH_ABSOLUTE_MS
  {
    assert TreeRow(rows, t);
    FamilyShares(rows, t);
  }

  /** Whatever was committed meanwhile, a rotation is written for an instant within both limits. */
  lemma WriteIsInTime(s: State, r: nat)
    requires Fit(s) && r in s.open
    ensures var o := s.open[r];
      && o.token < |s.rows|
      && o.now <= s.rows[o.token].createdAt + REFRESH_SLIDING_MS
      && s.rows[o.token].family < |s.rows|
      && o.now <= s.rows[s.rows[o.token].family].createdAt + REFRESH_ABSOLUTE_MS
      && Next(s, Write(r)).rows == Rotate(s.rows, o.token, o.now)
  {
    assert OpenFits(s.rows, s.open[r]);
    assert TreeRow(s.rows, s.open[r].token);
    FamilyShares(s.rows, s.open[r].token);
  }

  lemma RunStep(s: State, e: Event, rest: seq<Event>)
    ensures Run(s, [e] + rest) == Run(Next(s, e), rest)
  {
    assert ([e] + rest)[1..] == rest;
  }

  /** A refresh that nothing comes between rotates as `Refreshed` says. */
  lemma UndisturbedRefresh(s: State, r: nat, t: nat, now: int, userActive: bool)
    requires r !in s.open
    ensures Run(s, [Read(r, t, now, userActive), Write(r)]).rows == Refreshed(s.rows, t, now, userActive).0
  {
    var e := Read(r, t, now, userActive);
    var mid := Next(s, e);
    assert [e, Write(r)] == [e] + [Write(r)];
    RunStep(s, e, [Write(r)]);
    assert [Write(r)] == [Write(r)] + [];
    RunStep(mid, Write(r), []);
  }

  /** A child's sliding expiry may lie beyond the absolute one; only the absolute check stops it. */
  lemma SlidingCanOutliveAbsolute()
    ensures var r1 := Issue([], "ana", 0);
      var r2 := Refreshed(r1, 0, 30 * DAY_MS, true).0;
      var r3 := Refreshed(r2, 1, 60 * DAY_MS, true).0;
      var rows := Refreshed(r3, 2, 90 * DAY_MS, true).0;
      && |rows| == 4 && rows[3].expiresAt == 120 * DAY_MS && rows[3].absoluteExpiresAt == 90 * DAY_MS
      && Diagnose(rows, 3, 90 * DAY_MS + 1, true) == AbsoluteExpired
  {
  }

  /// ## Two refreshes of one token at once

  /** Two requests read token 0 before either has committed. */
  const RACE := [Read(0, 0, 1, true), Read(1, 0, 2, true), Write(0), Write(1)]

  /** What the four steps come to. */
  lemma RaceRun(s: State)
    requires |s.rows| == 1 && s.rows[0].revokedAt == None && s.open == map[]
    requires 2 <= s.rows[0].expiresAt && 2 <= s.rows[0].absoluteExpiresAt
    ensures Run(s, RACE).rows == Rotate(Rotate(s.rows, 0, 1), 0, 2)
  {
    var s1 := s.(open := map[0 := Rotation(0, 1)]);
    var s2 := s.(open := map[0 := Rotation(0, 1), 1 := Rotation(0, 2)]);
    var s3 := s.(rows := Rotate(s.rows, 0, 1), open := map[1 := Rotation(0, 2)]);
    var last := [Write(1)];
    assert RACE == [Read(0, 0, 1, true)] + [Read(1, 0, 2, true), Write(0), Write(1)];
    RunStep(s, Read(0, 0, 1, true), [Read(1, 0, 2, true), Write(0), Write(1)]);
    assert [Read(1, 0, 2, true), Write(0), Write(1)] == [Read(1, 0, 2, true)] + [Write(0), Write(1)];
    RunStep(s1, Read(1, 0, 2, true), [Write(0), Write(1)]);
    assert [Write(0), Write(1)] == [Write(0)] + last;
    RunStep(s2, Write(0), last);
    assert s2.open - {0} == s3.open;
    assert last == last + [];
    RunStep(s3, Write(1), []);
  }

  /** Both commit: the token has two live children, the family is no chain, and the session list
      shows one of the two live rows. */
  lemma TokenReplacedTwice()
    ensures var s := Next(START, NewSession("ana", 0));
      var rows := Run(s, RACE).rows;
      && |rows| == 3
      && LiveChild(rows, 0, 1) && LiveChild(rows, 0, 2)
      && Forked(rows) && !Inv(rows) && !NoDoubleWrite(s, RACE)
      && |LiveSessions(rows, "ana")| == 2
      && |FirstPerFamily(rows, LiveSessions(rows, "ana"))| == 1
  {
    var s := Next(START, NewSession("ana", 0));
    assert Tree([]);
    NextKeepsFit(START, NewSession("ana", 0));
    RaceRun(s);
    var rows := Run(s, RACE).rows;
    assert ChildOf(rows, 0, 1) && ChildOf(rows, 0, 2);
    assert Forked(rows);
    RunKeepsFit(s, RACE);
    ChainIff(rows);
    assert !Forked(s.rows);
    RunForksIff(s, RACE);
    TwoLiveSessions(rows);
  }

  lemma TwoLiveSessions(rows: Rows)
    requires |rows| == 3 && rows[0].revokedAt.Some? && LiveFor(rows, "ana", 1) && LiveFor(rows, "ana", 2)
    requires rows[1].family == rows[2].family && rows[1].createdAt < rows[2].createdAt
    ensures LiveSessions(rows, "ana") == [2, 1]
    ensures FirstPerFamily(rows, [2, 1]) == [2]
  {
    LiveOneAndTwo(rows);
    TwoNewestFirst(rows, 1, 2);
    FirstOfTwo(rows, 2, 1);
  }

  lemma LiveOneAndTwo(rows: Rows)
    requires |rows| == 3 && rows[0].revokedAt.Some? && LiveFor(rows, "ana", 1) && LiveFor(rows, "ana", 2)
    ensures LiveOf(rows, "ana", 3) == [1, 2]
  {
    assert LiveOf(rows, "ana", 1) == [];
    assert LiveOf(rows, "ana", 2) == [1];
  }

  lemma TwoNewestFirst(rows: Rows, i: nat, j: nat)
    requires i < |rows| && j < |rows| && rows[i].createdAt < rows[j].createdAt
    ensures NewestFirst(rows, [i, j]) == [j, i]
  {
    assert [i, j][1..] == [j] && [j][1..] == [];
    assert NewestFirst(rows, []) == [];
    assert NewestFirst(rows, [j]) == [j];
    assert InsertNewest(rows, i, [j]) == [j] + InsertNewest(rows, i, []);
  }

  lemma FirstOfTwo(rows: Rows, i: nat, j: nat)
    requires i < |rows| && j < |rows| && rows[i].family == rows[j].family
    ensures FirstPerFamily(rows, [i, j]) == [i]
  {
    assert [i, j][..1] == [i] && [i][..0] == [];
    assert Families(rows, [i]) == {rows[i].family};
    assert FirstPerFamily(rows, [i]) == [i];
  }

  /// ## Death of a family

  ghost predicate Dead(rows: Rows, f: nat) {
    && f < |rows|
    && forall i: nat :: i < |rows| && rows[i].family == f ==> rows[i].revokedAt.Some?
  }

  /** No refresh of family `f` has read its token and is still to commit. */
  predicate NoneOpen(s: State, f: nat) {
    forall r <- s.open :: s.open[r].token < |s.rows| ==> s.rows[s.open[r].token].family != f
  }

  lemma DeadNeverRotates(rows: Rows, f: nat, t: nat, now: int, userActive: bool)
    requires Dead(rows, f) && t < |rows| && rows[t].family == f
    ensures !Diagnose(rows, t, now, userActive).Rotated?
  {
  }

  lemma NoneOpened(s: State, e: Event, f: nat)
    requires Fit(s) && Dead(s.rows, f) && NoneOpen(s, f)
    ensures NoneOpen(Next(s, e), f)
  {
    var t := Next(s, e);
    NextKeepsPlaces(s, e);
    forall r | r in t.open && t.open[r].token < |t.rows| ensures t.rows[t.open[r].token].family != f {
      if r in s.open { assert OpenFits(s.rows, s.open[r]); }
    }
  }

  lemma DeadStaysDead(s: State, e: Event, f: nat)
    requires Fit(s) && Dead(s.rows, f) && NoneOpen(s, f)
    ensures Dead(Next(s, e).rows, f) && NoneOpen(Next(s, e), f)
  {
    NoneOpened(s, e, f);
    if e.Write? && e.request in s.open { assert OpenFits(s.rows, s.open[e.request]); }
  }

  lemma {:induction false} DeadForever(s: State, events: seq<Event>, f: nat)
    requires Fit(s) && Dead(s.rows, f) && NoneOpen(s, f)
    ensures Dead(Run(s, events).rows, f) && NoneOpen(Run(s, events), f)
    decreases |events|
  {
    if events != [] {
      NextKeepsFit(s, events[0]);
      DeadStaysDead(s, events[0], f);
      DeadForever(Next(s, events[0]), events[1..], f);
    }
  }

  /** A rotation written into a dead family always brings it back: its child is unrevoked. */
  lemma StaleWriteRevives(s: State, r: nat, f: nat)
    requires r in s.open && s.open[r].token < |s.rows| && s.rows[s.open[r].token].family == f
    ensures !Dead(Next(s, Write(r)).rows, f)
  {
    var t := Next(s, Write(r)).rows;
    assert t[|s.rows|].family == f && t[|s.rows|].revokedAt == None;
  }

  /** Exactly when a dead family is dead for good, whatever requests follow and however they
      interleave: when none of its refreshes was in flight. */
  lemma DeadForGoodIff(s: State, f: nat)
    requires Fit(s) && Dead(s.rows, f)
    ensures (forall events :: Dead(Run(s, events).rows, f)) <==> NoneOpen(s, f)
  {
    if NoneOpen(s, f) {
      forall events ensures Dead(Run(s, events).rows, f) { DeadForever(s, events, f); }
    } else {
      var r :| r in s.open && s.open[r].token < |s.rows| && s.rows[s.open[r].token].family == f;
      StaleWriteRevives(s, r, f);
      assert [Write(r)] == [Write(r)] + [];
      RunStep(s, Write(r), []);
      assert !Dead(Run(s, [Write(r)]).rows, f);
    }
  }

  /** `e` revokes family `f`: the second phase of a detected reuse, a logout with any of its tokens,
      or its owner's request. */
  predicate Kills(s: State, e: Event, f: nat) {
    f < |s.rows| && s.rows[f].family == f &&
    match e
    case Phase2(family, _) => family == f && f in s.pending
    case Logout(token, _) => token < |s.rows| && s.rows[token].family == f
    case RevokeSession(userId, family, _) => family == f && s.rows[f].userId == userId
    case _ => false
  }

  lemma KillsMakesDead(s: State, e: Event, f: nat)
    requires Fit(s) && Kills(s, e, f)
    ensures Dead(Next(s, e).rows, f)
    ensures NoneOpen(Next(s, e), f) <==> NoneOpen(s, f)
  {
    forall i: nat | i < |s.rows| && s.rows[i].family == f ensures s.rows[i].userId == s.rows[f].userId {
      FamilyShares(s.rows, i);
    }
    NextKeepsPlaces(s, e);
    assert Next(s, e).open == s.open;
    forall r | r in s.open ensures s.open[r].token < |s.rows| { assert OpenFits(s.rows, s.open[r]); }
  }

  /** A revoked family stays dead through every later run if and only if no refresh of it was in
      flight when it was revoked. */
  lemma FamilyDeathIsPermanentIff(s: State, e: Event, f: nat)
    requires Fit(s) && Kills(s, e, f)
    ensures Dead(Next(s, e).rows, f)
    ensures (forall events :: Dead(Run(Next(s, e), events).rows, f)) <==> NoneOpen(s, f)
  {
    KillsMakesDead(s, e, f);
    NextKeepsFit(s, e);
    DeadForGoodIff(Next(s, e), f);
  }

  /** Then no token of the family is ever found good again, and no rotation of it is written. */
  lemma DeadFamilyNeverRotates(s: State, e: Event, f: nat, events: seq<Event>, t: nat, now: int, userActive: bool)
    requires Fit(s) && Kills(s, e, f) && NoneOpen(s, f)
    ensures var end := Run(Next(s, e), events);
      && (t < |end.rows| && end.rows[t].family == f ==> !Diagnose(end.rows, t, now, userActive).Rotated?)
      && NoneOpen(end, f)
  {
    KillsMakesDead(s, e, f);
    NextKeepsFit(s, e);
    DeadForever(Next(s, e), events, f);
    var rows := Run(Next(s, e), events).rows;
    if t < |rows| && rows[t].family == f {
      DeadNeverRotates(rows, f, t, now, userActive);
    }
  }

  /** With serializable first phases death is permanent without that condition. */
  lemma {:induction false} SerializableDeathIsPermanent(s: State, events: seq<Event>, f: nat)
    requires Fit(s) && Dead(s.rows, f) && FreshWrites(s, events)
    ensures Dead(Run(s, events).rows, f)
    decreases |events|
  {
    if events != [] {
      NextKeepsFit(s, events[0]);
      FreshKeepsDead(s, events[0], f);
      SerializableDeathIsPermanent(Next(s, events[0]), events[1..], f);
    }
  }

  lemma FreshKeepsDead(s: State, e: Event, f: nat)
    requires Fit(s) && Dead(s.rows, f) && FreshWrite(s, e)
    ensures Dead(Next(s, e).rows, f)
  {
    if e.Write? && e.request in s.open { assert OpenFits(s.rows, s.open[e.request]); }
  }

  /** A logout while a refresh is in flight: the refresh leaves a live token in the revoked family. */
  lemma LogoutOvertaken()
    ensures var s := Next(START, NewSession("ana", 0));
      var out := Next(Next(s, Read(0, 0, 1, true)), Logout(0, 2));
      && Dead(out.rows, 0)
      && Next(out, Write(0)).rows[1].family == 0
      && Diagnose(Next(out, Write(0)).rows, 1, 3, true) == Rotated(2)
  {
  }

  predicate SparesPending(events: seq<Event>, f: nat) {
    forall k :: 0 <= k < |events| ==> !(events[k].Phase2? && events[k].family == f)
  }

  predicate PendingFor(s: State, f: nat) {
    f in s.pending && f < |s.rows| && s.rows[f].family == f
  }

  lemma NextSparesPending(s: State, e: Event, f: nat)
    requires PendingFor(s, f) && !(e.Phase2? && e.family == f)
    ensures PendingFor(Next(s, e), f)
  {
  }

  lemma {:induction false} PendingSurvives(s: State, events: seq<Event>, f: nat)
    requires PendingFor(s, f) && SparesPending(events, f)
    ensures PendingFor(Run(s, events), f)
    decreases |events|
  {
    if events != [] {
      NextSparesPending(s, events[0], f);
      PendingSurvives(Next(s, events[0]), events[1..], f);
    }
  }

  /** Whatever commits between the two phases of a detected reuse, rotations of the same family
      included, the second phase kills the family; and for good exactly when no refresh of it is
      still in flight then. */
  lemma ReuseKillsDespiteRaces(s: State, r: nat, t: nat, now: int, userActive: bool, f: nat,
                               between: seq<Event>, later: int)
    requires Fit(s) && r !in s.open && Diagnose(s.rows, t, now, userActive) == ReuseDetected(f)
    requires SparesPending(between, f)
    ensures var mid := Run(Next(s, Read(r, t, now, userActive)), between);
      var end := Next(mid, Phase2(f, later));
      && Dead(end.rows, f)
      && ((forall after :: Dead(Run(end, after).rows, f)) <==> NoneOpen(mid, f))
  {
    var first := Next(s, Read(r, t, now, userActive));
    NextKeepsFit(s, Read(r, t, now, userActive));
    FamilyShares(s.rows, t);
    assert PendingFor(first, f);
    PendingSurvives(first, between, f);
    RunKeepsFit(first, between);
    FamilyDeathIsPermanentIff(Run(first, between), Phase2(f, later), f);
  }

  predicate Concerns(s: State, e: Event, f: nat) {
    match e
    case NewSession(_, _) => false
    case Read(_, _, _, _) => false
    case Write(r) => r in s.open && s.open[r].token < |s.rows| && s.rows[s.open[r].token].family == f
    case Abort(_) => false
    case Phase2(family, _) => family == f
    case Logout(token, _) => token < |s.rows| && s.rows[token].family == f
    case RevokeSession(_, family, _) => family == f
  }

  /** An event that does not concern a family leaves every row of it as it was. */
  lemma OtherFamiliesUntouched(s: State, e: Event, i: nat)
    requires i < |s.rows| && !Concerns(s, e, s.rows[i].family)
    ensures i < |Next(s, e).rows| && Next(s, e).rows[i] == s.rows[i]
  {
  }

  /// ## The token table

  class TokenStore {
    var rows: Rows

    constructor ()
      ensures rows == []
    {
      rows := [];
    }

    method IssueNewSession(userId: string, now: int) returns (token: nat)
      modifies this
      ensures rows == Issue(old(rows), userId, now)
      ensures token == |old(rows)|
    {
      token := |rows|;
      rows := rows + [Token(userId, token, None, now, now + REFRESH_SLIDING_MS, now + REFRESH_ABSOLUTE_MS,
        None, None, None)];
    }

    method FindLiveChild(parent: nat) returns (found: bool)
      ensures found <==> HasLiveChild(rows, parent)
    {
      found := false;
      for n := 0 to |rows|
        invariant forall c: nat :: c < n ==> !LiveChild(rows, parent, c)
      {
        if rows[n].parent == Some(parent) && rows[n].revokedAt == None {
          assert LiveChild(rows, parent, n);
          return true;
        }
      }
    }

    /** The reading part of phase one: what the token is answered with, before anything is written. */
    method DiagnoseToken(t: nat, now: int, userActive: bool) returns (outcome: Outcome)
      ensures outcome == Diagnose(rows, t, now, userActive)
    {
      if t >= |rows| {
        return Invalid;
      }
      var stored := rows[t];
      if stored.revokedAt.Some? {
        var child := FindLiveChild(t);
        var replacedAt := if stored.replacedAt.Some? then stored.replacedAt.value else 0;
        if child && now - replacedAt < REFRESH_REUSE_GRACE_MS {
          return InProgress;
        }
        return ReuseDetected(stored.family);
      }
      if stored.absoluteExpiresAt < now {
        return AbsoluteExpired;
      }
      if stored.expiresAt < now {
        return Expired;
      }
      if !userActive {
        return UserInactive;
      }
      return Rotated(|rows|);
    }

    /** The writing part: the child row, then the parent's marks, without looking again. */
    method WriteRotation(t: nat, now: int)
      requires t < |rows|
      modifies this
      ensures rows == Rotate(old(rows), t, now)
    {
      var stored := rows[t];
      rows := rows + [Token(stored.userId, stored.family, Some(t), now, now + REFRESH_SLIDING_MS,
        stored.absoluteExpiresAt, None, None, None)];
      rows := rows[t := rows[t].(revokedAt := Some(now), replacedAt := Some(now))];
    }

    /** Phase one of `refresh` when nothing comes between its two parts. */
    method Refresh(t: nat, now: int, userActive: bool) returns (outcome: Outcome)
      modifies this
      ensures (rows, outcome) == Refreshed(old(rows), t, now, userActive)
    {
      outcome := DiagnoseToken(t, now, userActive);
      if outcome.Rotated? {
        WriteRotation(t, now);
      }
    }

    /** The bulk update shared by phase two, logout and session revocation. */
    method RevokeFamily(family: nat, owner: Option<string>, reused: bool, now: int)
      modifies this
      ensures rows == Revoke(old(rows), family, owner, reused, now)
    {
      for n := 0 to |rows|
        invariant |rows| == |old(rows)|
        invariant forall k :: 0 <= k < n ==> rows[k] == RevokeRow(old(rows)[k], family, owner, reused, now)
        invariant forall k :: n <= k < |rows| ==> rows[k] == old(rows)[k]
      {
        if Targeted(rows[n], family, owner) {
          var reusedAt := if reused then Some(now) else rows[n].reusedAt;
          rows := rows[n := rows[n].(revokedAt := Some(now), reusedAt := reusedAt)];
        }
      }
    }

    method Logout(t: Option<nat>, now: int)
      modifies this
      ensures rows == if t.Some? && t.value < |old(rows)|
        then Revoke(old(rows), old(rows)[t.value].family, None, false, now) else old(rows)
    {
      if t.Some? && t.value < |rows| {
        RevokeFamily(rows[t.value].family, None, false, now);
      }
    }

    /** The user's live rows, newest first, keeping the first of each family. */
    method ListSessions(userId: string) returns (sessions: seq<nat>)
      ensures sessions == FirstPerFamily(rows, LiveSessions(rows, userId))
    {
      var found := LiveSessions(rows, userId);
      sessions := [];
      var byFamily: set<nat> := {};
      for n := 0 to |found|
        invariant sessions == FirstPerFamily(rows, found[..n])
        invariant byFamily == Families(rows, found[..n])
      {
        assert found[..n + 1][..n] == found[..n];
        if rows[found[n]].family !in byFamily {
          sessions := sessions + [found[n]];
          byFamily := byFamily + {rows[found[n]].family};
        }
      }
      assert found[..|found|] == found;
    }
  }

  function Families(rows: Rows, ids: seq<nat>): (r: set<nat>)
    requires ValidIds(rows, ids)
  {
    if ids == [] then {} else Families(rows, ids[..|ids| - 1]) + {rows[ids[|ids| - 1]].family}
  }

  function FirstPerFamily(rows: Rows, ids: seq<nat>): (r: seq<nat>)
    requires ValidIds(rows, ids)
  {
    if ids == [] then []
    else
      var init, last := ids[..|ids| - 1], ids[|ids| - 1];
      FirstPerFamily(rows, init) + if rows[last].family in Families(rows, init) then [] else [last]
  }

  /** The walk drops a row exactly when the user has two live rows in one family. */
  lemma NothingDroppedIff(rows: Rows, userId: string)
    ensures FirstPerFamily(rows, LiveSessions(rows, userId)) == LiveSessions(rows, userId) <==>
      OnePerFamily(rows, LiveSessions(rows, userId))
  {
    var found := LiveSessions(rows, userId);
    if OnePerFamily(rows, found) {
      NothingDropped(rows, found);
    }
    KeptDiffer(rows, found);
  }

  lemma {:induction false} KeptDiffer(rows: Rows, ids: seq<nat>)
    requires ValidIds(rows, ids)
    ensures ValidIds(rows, FirstPerFamily(rows, ids))
    ensures OnePerFamily(rows, FirstPerFamily(rows, ids))
    ensures forall k :: 0 <= k < |FirstPerFamily(rows, ids)| ==>
      rows[FirstPerFamily(rows, ids)[k]].family in Families(rows, ids)
  {
    if ids != [] {
      KeptDiffer(rows, ids[..|ids| - 1]);
    }
  }

  /** In a table of chains the walk drops nothing: every live row of the user is listed, newest
      first, and no two are of one family. */
  lemma SessionsAreAllLive(rows: Rows, userId: string)
    requires Inv(rows)
    ensures var sessions := FirstPerFamily(rows, LiveSessions(rows, userId));
      && ValidIds(rows, sessions)
      && (forall i: nat :: i in sessions <==> LiveFor(rows, userId, i))
      && NewestOrder(rows, sessions)
      && OnePerFamily(rows, sessions)
  {
    var found := LiveSessions(rows, userId);
    SortedLive(rows, userId);
    LiveFamiliesDiffer(rows, found);
    NothingDropped(rows, found);
  }

  lemma {:induction false} FamiliesHasWitness(rows: Rows, ids: seq<nat>, f: nat)
    requires ValidIds(rows, ids) && f in Families(rows, ids)
    ensures exists k :: 0 <= k < |ids| && rows[ids[k]].family == f
  {
    var init, n := ids[..|ids| - 1], |ids| - 1;
    if f == rows[ids[n]].family {
      assert rows[ids[n]].family == f;
    } else {
      FamiliesHasWitness(rows, init, f);
      var k :| 0 <= k < |init| && rows[init[k]].family == f;
      assert rows[ids[k]].family == f;
    }
  }

  lemma {:induction false} NothingDropped(rows: Rows, ids: seq<nat>)
    requires ValidIds(rows, ids) && OnePerFamily(rows, ids)
    ensures FirstPerFamily(rows, ids) == ids
  {
    if ids != [] {
      var init, last := ids[..|ids| - 1], ids[|ids| - 1];
      NothingDropped(rows, init);
      if rows[last].family in Families(rows, init) {
        FamiliesHasWitness(rows, init, rows[last].family);
      }
      assert init + [last] == ids;
    }
  }

  ghost predicate OnePerFamily(rows: Rows, ids: seq<nat>)
    requires ValidIds(rows, ids)
  {
    forall j, k :: 0 <= j < k < |ids| ==> rows[ids[j]].family != rows[ids[k]].family
  }

  /** Distinct live rows belong to distinct families. */
  lemma LiveFamiliesDiffer(rows: Rows, ids: seq<nat>)
    requires Inv(rows) && ValidIds(rows, ids) && NewestOrder(rows, ids)
    requires forall k :: 0 <= k < |ids| ==> rows[ids[k]].revokedAt == None
    ensures OnePerFamily(rows, ids)
  {
    forall j, k | 0 <= j < k < |ids| ensures rows[ids[j]].family != rows[ids[k]].family {
      if rows[ids[j]].family == rows[ids[k]].family {
        OnlyLastIsLive(rows, ids[j], ids[k]);
        OnlyLastIsLive(rows, ids[k], ids[j]);
      }
    }
  }

  /// ## The query behind the session list

  predicate ValidIds(rows: Rows, ids: seq<nat>) {
    forall k :: 0 <= k < |ids| ==> ids[k] < |rows|
  }

  predicate LiveFor(rows: Rows, userId: string, i: nat) {
    i < |rows| && rows[i].userId == userId && rows[i].revokedAt == None
  }

  function LiveOf(rows: Rows, userId: string, n: nat): (r: seq<nat>)
    requires n <= |rows|
    ensures ValidIds(rows, r)
  {
    if n == 0 then []
    else LiveOf(rows, userId, n - 1) + if LiveFor(rows, userId, n - 1) then [n - 1] else []
  }

  function InsertNewest(rows: Rows, i: nat, ids: seq<nat>): (r: seq<nat>)
    requires i < |rows| && ValidIds(rows, ids)
    ensures ValidIds(rows, r)
  {
    if ids == [] || rows[i].createdAt >= rows[ids[0]].createdAt then [i] + ids
    else [ids[0]] + InsertNewest(rows, i, ids[1..])
  }

  function NewestFirst(rows: Rows, ids: seq<nat>): (r: seq<nat>)
    requires ValidIds(rows, ids)
    ensures ValidIds(rows, r)
  {
    if ids == [] then [] else InsertNewest(rows, ids[0], NewestFirst(rows, ids[1..]))
  }

  function LiveSessions(rows: Rows, userId: string): (r: seq<nat>)
    ensures ValidIds(rows, r)
  {
    NewestFirst(rows, LiveOf(rows, userId, |rows|))
  }

  ghost predicate NewestOrder(rows: Rows, ids: seq<nat>)
    requires ValidIds(rows, ids)
  {
    forall j, k :: 0 <= j < k < |ids| ==> rows[ids[j]].createdAt >= rows[ids[k]].createdAt && ids[j] != ids[k]
  }

  lemma {:induction false} LiveOfExact(rows: Rows, userId: string, n: nat)
    requires n <= |rows|
    ensures forall i: nat :: i in LiveOf(rows, userId, n) <==> i < n && LiveFor(rows, userId, i)
    ensures Distinct(LiveOf(rows, userId, n))
  {
    if n > 0 {
      LiveOfExact(rows, userId, n - 1);
      var init := LiveOf(rows, userId, n - 1);
      assert forall k :: 0 <= k < |init| ==> init[k] in init;
    }
  }

  predicate Distinct(ids: seq<nat>) {
    forall j, k :: 0 <= j < k < |ids| ==> ids[j] != ids[k]
  }

  lemma {:induction false} InsertNewestMembers(rows: Rows, i: nat, ids: seq<nat>, x: nat)
    requires i < |rows| && ValidIds(rows, ids)
    ensures x in InsertNewest(rows, i, ids) <==> x == i || x in ids
  {
    if ids != [] {
      assert ids == [ids[0]] + ids[1..];
      InsertNewestMembers(rows, i, ids[1..], x);
    }
  }

  lemma {:induction false} NewestFirstMembers(rows: Rows, ids: seq<nat>, x: nat)
    requires ValidIds(rows, ids)
    ensures x in NewestFirst(rows, ids) <==> x in ids
  {
    if ids != [] {
      assert ids == [ids[0]] + ids[1..];
      NewestFirstMembers(rows, ids[1..], x);
      InsertNewestMembers(rows, ids[0], NewestFirst(rows, ids[1..]), x);
    }
  }

  lemma {:induction false} InsertNewestOrder(rows: Rows, i: nat, ids: seq<nat>)
    requires i < |rows| && ValidIds(rows, ids) && NewestOrder(rows, ids) && i !in ids
    ensures NewestOrder(rows, InsertNewest(rows, i, ids))
  {
    if ids != [] && rows[i].createdAt < rows[ids[0]].createdAt {
      var rest := InsertNewest(rows, i, ids[1..]);
      InsertNewestOrder(rows, i, ids[1..]);
      forall k | 0 <= k < |rest| ensures rows[ids[0]].createdAt >= rows[rest[k]].createdAt && ids[0] != rest[k] {
        InsertNewestMembers(rows, i, ids[1..], rest[k]);
        assert rest[k] in rest;
      }
    }
  }

  lemma {:induction false} NewestFirstOrder(rows: Rows, ids: seq<nat>)
    requires ValidIds(rows, ids) && Distinct(ids)
    ensures NewestOrder(rows, NewestFirst(rows, ids))
  {
    if ids != [] {
      NewestFirstOrder(rows, ids[1..]);
      NewestFirstMembers(rows, ids[1..], ids[0]);
      InsertNewestOrder(rows, ids[0], NewestFirst(rows, ids[1..]));
    }
  }

  lemma SortedLive(rows: Rows, userId: string)
    ensures var found := LiveSessions(rows, userId);
      && NewestOrder(rows, found)
      && (forall i: nat :: i in found <==> LiveFor(rows, userId, i))
      && forall k :: 0 <= k < |found| ==> rows[found[k]].revokedAt == None
  {
    var live := LiveOf(rows, userId, |rows|);
    LiveOfExact(rows, userId, |rows|);
    NewestFirstOrder(rows, live);
    var found := NewestFirst(rows, live);
    forall i: nat ensures i in found <==> LiveFor(rows, userId, i) {
      NewestFirstMembers(rows, live, i);
    }
    assert forall k :: 0 <= k < |found| ==> found[k] in found;
  }
}
