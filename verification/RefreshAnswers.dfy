/**
 * What a client can tell of refresh tokens: every answer to a refresh with its exact
 * condition, what each event does to every row, and what a deactivated user can still
 * get, in terms of rows and milliseconds only.
 */
module RefreshAnswers {
  import opened Options
  import opened RefreshTokens

  /// ## One refresh

  predicate Known(rows: Rows, t: nat) {
    t < |rows|
  }

  predicate Unrevoked(rows: Rows, t: nat) {
    t < |rows| && rows[t].revokedAt == None
  }

  /** The token was replaced less than ten seconds ago, by one that has not been revoked. A token that was
      revoked without being replaced counts as replaced when time began. */
  predicate JustReplaced(rows: Rows, t: nat, now: int) {
    && t < |rows|
    && (exists c: nat :: c < |rows| && Unrevoked(rows, c) && rows[c].parent == Some(t))
    && now < 10_000 + if rows[t].replacedAt.Some? then rows[t].replacedAt.value else 0
  }

  /** Every answer to a refresh, exactly when it comes. */
  lemma RefreshAnswersIff(rows: Rows, t: nat, now: int, userActive: bool)
    ensures var answer := Refreshed(rows, t, now, userActive).1;
      && (answer == Invalid <==> !Known(rows, t))
      && (answer == InProgress <==> Known(rows, t) && !Unrevoked(rows, t) && JustReplaced(rows, t, now))
      && (answer.ReuseDetected? <==> Known(rows, t) && !Unrevoked(rows, t) && !JustReplaced(rows, t, now))
      && (answer.ReuseDetected? ==> answer.family == rows[t].family)
      && (answer == AbsoluteExpired <==> Unrevoked(rows, t) && rows[t].absoluteExpiresAt < now)
      && (answer == Expired <==> Unrevoked(rows, t) && rows[t].expiresAt < now <= rows[t].absoluteExpiresAt)
      && (answer == UserInactive <==>
            Unrevoked(rows, t) && now <= rows[t].expiresAt && now <= rows[t].absoluteExpiresAt && !userActive)
      && (answer.Rotated? <==>
            Unrevoked(rows, t) && now <= rows[t].expiresAt && now <= rows[t].absoluteExpiresAt && userActive)
      && (answer.Rotated? ==> answer.child == |rows|)
  {
    if t < |rows| {
      assert HasLiveChild(rows, t) <==>
        exists c: nat :: c < |rows| && Unrevoked(rows, c) && rows[c].parent == Some(t) by
      {
        if HasLiveChild(rows, t) {
          var c: nat :| c < |rows| && LiveChild(rows, t, c);
          assert Unrevoked(rows, c);
        }
        if c: nat :| c < |rows| && Unrevoked(rows, c) && rows[c].parent == Some(t) {
          assert LiveChild(rows, t, c);
        }
      }
    }
  }

  /** In every table that an interleaving reaches, the two lifetimes are thirty days from the token's own
      issue, and ninety from the first of its family; each instant of them counts, the last included. */
  lemma RotatedIff(rows: Rows, t: nat, now: int, userActive: bool)
    requires Tree(rows)
    ensures Refreshed(rows, t, now, userActive).1.Rotated? <==>
      && Unrevoked(rows, t) && userActive
      && now - rows[t].createdAt <= 30 * 24 * 3_600_000
      && rows[t].family < |rows| && now - rows[rows[t].family].createdAt <= 90 * 24 * 3_600_000
  {
    RefreshAnswersIff(rows, t, now, userActive);
    if t < |rows| {
      FamilyShares(rows, t);
      assert TreeRow(rows, t);
    }
  }

  /// ## What each event does to the rows

  /** A new session is a family of its own. */
  lemma NewSessionRows(s: State, userId: string, now: int)
    ensures Next(s, NewSession(userId, now)) == State(
      s.rows + [Token(userId, |s.rows|, None, now, now + 30 * 24 * 3_600_000, now + 90 * 24 * 3_600_000,
                      None, None, None)],
      s.open, s.pending)
  {
  }

  /** A read writes no row. It opens a rotation when the token is good, and records a reuse when one is
      detected, so that the second phase can revoke the family once for each. */
  lemma ReadMeans(s: State, r: nat, t: nat, now: int, userActive: bool)
    requires r !in s.open
    ensures var answer := Refreshed(s.rows, t, now, userActive).1;
      Next(s, Read(r, t, now, userActive)) == State(
        s.rows,
        if answer.Rotated? then s.open[r := Rotation(t, now)] else s.open,
        if answer.ReuseDetected? then s.pending + multiset{answer.family} else s.pending)
  {
  }

  /** A rotation that is written adds one child and puts two marks on its parent, and touches nothing else. */
  lemma WrittenRows(s: State, r: nat)
    requires r in s.open && s.open[r].token < |s.rows|
    ensures var t, now, parent := s.open[r].token, s.open[r].now, s.rows[s.open[r].token];
      var rows := Next(s, Write(r)).rows;
      && |rows| == |s.rows| + 1
      && rows[|s.rows|] == Token(parent.userId, parent.family, Some(t), now, now + 30 * 24 * 3_600_000,
                                 parent.absoluteExpiresAt, None, None, None)
      && rows[t] == Token(parent.userId, parent.family, parent.parent, parent.createdAt, parent.expiresAt,
                          parent.absoluteExpiresAt, Some(now), Some(now), parent.reusedAt)
      && forall i: nat :: i < |s.rows| && i != t ==> rows[i] == s.rows[i]
  {
  }

  /** A refresh that dies writes nothing: not then, and not later under its number. */
  lemma DeadWritesNothing(s: State, r: nat)
    ensures Next(s, Abort(r)).rows == s.rows && Next(s, Abort(r)).pending == s.pending
    ensures Next(Next(s, Abort(r)), Write(r)) == Next(s, Abort(r))
    ensures forall k :: k != r ==>
      (k in Next(s, Abort(r)).open <==> k in s.open) && (k in s.open ==> Next(s, Abort(r)).open[k] == s.open[k])
  {
  }

  /** The event revokes row `i`: logout the whole family of the token it is given, a user one family of
      their own, and the second phase of a detected reuse the family that was detected. */
  predicate Hits(s: State, e: Event, i: nat) {
    && Unrevoked(s.rows, i)
    && match e
       case Logout(token, _) => token < |s.rows| && s.rows[i].family == s.rows[token].family
       case RevokeSession(userId, family, _) => s.rows[i].family == family && s.rows[i].userId == userId
       case Phase2(family, _) => family in s.pending && s.rows[i].family == family
       case _ => false
  }

  /** Exactly which rows a revocation changes and how: once revoked, a row keeps its first mark, and only a
      detected reuse is recorded as one. */
  lemma RevokedRows(s: State, e: Event, i: nat)
    requires (e.Logout? || e.RevokeSession? || e.Phase2?) && i < |s.rows|
    ensures |Next(s, e).rows| == |s.rows| && Next(s, e).open == s.open
    ensures Next(s, e).pending == if e.Phase2? then s.pending - multiset{e.family} else s.pending
    ensures var a, b := s.rows[i], Next(s, e).rows[i];
      b == if !Hits(s, e, i) then a
           else Token(a.userId, a.family, a.parent, a.createdAt, a.expiresAt, a.absoluteExpiresAt,
                      Some(e.now), a.replacedAt, if e.Phase2? then Some(e.now) else a.reusedAt)
  {
  }

  /** Logging out ends the session whatever comes of the other tokens of it: none of its family is good for
      a rotation any more, at any time. */
  lemma LogoutEndsFamily(s: State, token: nat, now: int, t: nat, later: int, userActive: bool)
    requires token < |s.rows| && t < |s.rows| && s.rows[t].family == s.rows[token].family
    ensures !Refreshed(Next(s, Logout(token, now)).rows, t, later, userActive).1.Rotated?
  {
    RevokedRows(s, Logout(token, now), t);
    RefreshAnswersIff(Next(s, Logout(token, now)).rows, t, later, userActive);
  }

  /// ## A user who has been deactivated

  /** A refresh for an inactive user writes nothing and opens nothing. */
  lemma InactiveGetsNothing(s: State, r: nat, t: nat, now: int)
    ensures Refreshed(s.rows, t, now, false).0 == s.rows && !Refreshed(s.rows, t, now, false).1.Rotated?
    ensures Next(s, Read(r, t, now, false)).rows == s.rows && Next(s, Read(r, t, now, false)).open == s.open
  {
  }

  lemma OpenedNow(s: State, e: Event, r: nat)
    requires r in Next(s, e).open
    ensures var o := Next(s, e).open[r];
      (r in s.open && s.open[r] == o) || (e == Read(r, o.token, o.now, true) && o.token < |s.rows|)
  {
  }

  /** Every rotation in flight was begun by a read that found its user active. */
  lemma {:induction false} OpenedByActive(s: State, events: seq<Event>, r: nat)
    requires r in Run(s, events).open
    ensures var o := Run(s, events).open[r];
      (r in s.open && s.open[r] == o) || exists k :: 0 <= k < |events| && events[k] == Read(r, o.token, o.now, true)
    decreases |events|
  {
    if events != [] {
      OpenedByActive(Next(s, events[0]), events[1..], r);
      var o := Run(s, events).open[r];
      if r in Next(s, events[0]).open && Next(s, events[0]).open[r] == o {
        OpenedNow(s, events[0], r);
        assert (r in s.open && s.open[r] == o) || events[0] == Read(r, o.token, o.now, true);
      } else {
        var k :| 0 <= k < |events[1..]| && events[1..][k] == Read(r, o.token, o.now, true);
        assert events[k + 1] == Read(r, o.token, o.now, true);
      }
    }
  }

  /** The user begins no session, and a refresh of a token of theirs finds them inactive. */
  predicate Allowed(s: State, e: Event, userId: string) {
    && (e.NewSession? ==> e.userId != userId)
    && (e.Read? && e.token < |s.rows| && s.rows[e.token].userId == userId ==> !e.userActive)
  }

  predicate LockedOut(s: State, events: seq<Event>, userId: string)
    decreases |events|
  {
    events == [] || (Allowed(s, events[0], userId) && LockedOut(Next(s, events[0]), events[1..], userId))
  }

  predicate NoneInFlight(s: State, userId: string) {
    forall r <- s.open :: s.open[r].token < |s.rows| ==> s.rows[s.open[r].token].userId != userId
  }

  /** The user has only the tokens they had, and no dead one has come back to life. */
  ghost predicate GotNothing(s: State, t: State, userId: string) {
    forall i: nat :: i < |t.rows| && t.rows[i].userId == userId ==>
      i < |s.rows| && (Unrevoked(t.rows, i) ==> Unrevoked(s.rows, i))
  }

  /** From the moment of a user's deactivation they get nothing from any interleaving, if and only if no
      refresh of theirs was in flight at that moment. */
  lemma LockedOutIff(s: State, userId: string)
    requires Fit(s)
    ensures (forall events :: LockedOut(s, events, userId) ==> GotNothing(s, Run(s, events), userId)) <==>
      NoneInFlight(s, userId)
  {
    if NoneInFlight(s, userId) {
      forall events | LockedOut(s, events, userId) ensures GotNothing(s, Run(s, events), userId) {
        forall i: nat | i < |Run(s, events).rows| && Run(s, events).rows[i].userId == userId
          ensures i < |s.rows| && (Unrevoked(Run(s, events).rows, i) ==> Unrevoked(s.rows, i))
        {
          LockedOutGetsNothing(s, events, userId, i);
        }
      }
    } else {
      var events := InFlightGets(s, userId);
      assert !GotNothing(s, Run(s, events), userId);
    }
  }

  lemma InFlightGets(s: State, userId: string) returns (events: seq<Event>)
    requires Fit(s) && !NoneInFlight(s, userId)
    ensures LockedOut(s, events, userId) && !GotNothing(s, Run(s, events), userId)
  {
    var r :| r in s.open && s.open[r].token < |s.rows| && s.rows[s.open[r].token].userId == userId;
    events := [Write(r)];
    assert events[1..] == [];
    WrittenRows(s, r);
    assert Run(s, events) == Next(s, Write(r));
    assert Run(s, events).rows[|s.rows|].userId == userId;
  }

  lemma {:induction false} LockedOutGetsNothing(s: State, events: seq<Event>, userId: string, i: nat)
    requires Fit(s) && NoneInFlight(s, userId) && LockedOut(s, events, userId)
    requires i < |Run(s, events).rows| && Run(s, events).rows[i].userId == userId
    ensures i < |s.rows|
    ensures Unrevoked(Run(s, events).rows, i) ==> Unrevoked(s.rows, i)
    decreases |events|
  {
    if events != [] {
      var t := Next(s, events[0]);
      NextKeepsFit(s, events[0]);
      NextKeepsPlaces(s, events[0]);
      StillNoneInFlight(s, events[0], userId);
      LockedOutGetsNothing(t, events[1..], userId, i);
      RunKeepsUser(t, events[1..], i);
      NothingNew(s, events[0], userId, i);
    }
  }

  lemma StillNoneInFlight(s: State, e: Event, userId: string)
    requires Fit(s) && NoneInFlight(s, userId) && Allowed(s, e, userId)
    ensures NoneInFlight(Next(s, e), userId)
  {
    var t := Next(s, e);
    NextKeepsPlaces(s, e);
    forall r | r in t.open && t.open[r].token < |t.rows| ensures t.rows[t.open[r].token].userId != userId {
      OpenedNow(s, e, r);
      if r in s.open && s.open[r] == t.open[r] { assert OpenFits(s.rows, s.open[r]); }
      assert SamePlace(s.rows[t.open[r].token], t.rows[t.open[r].token]);
    }
  }

  lemma NothingNew(s: State, e: Event, userId: string, i: nat)
    requires Fit(s) && NoneInFlight(s, userId) && Allowed(s, e, userId)
    requires i < |Next(s, e).rows| && Next(s, e).rows[i].userId == userId
    ensures i < |s.rows|
    ensures Unrevoked(Next(s, e).rows, i) ==> Unrevoked(s.rows, i)
  {
    if e.Logout? || e.RevokeSession? || e.Phase2? {
      RevokedRows(s, e, i);
    } else if e.Write? && e.request in s.open {
      assert OpenFits(s.rows, s.open[e.request]);
    }
  }

  lemma {:induction false} RunKeepsUser(s: State, events: seq<Event>, i: nat)
    ensures |s.rows| <= |Run(s, events).rows|
    ensures i < |s.rows| ==> Run(s, events).rows[i].userId == s.rows[i].userId
    decreases |events|
  {
    if events != [] {
      NextKeepsPlaces(s, events[0]);
      RunKeepsUser(Next(s, events[0]), events[1..], i);
    }
  }

  /// ## The session list

  /** Row `i` is a live one of the user. */
  predicate Alive(rows: Rows, userId: string, i: nat) {
    Unrevoked(rows, i) && rows[i].userId == userId
  }

  lemma {:induction false} KeptIsFirst(rows: Rows, ids: seq<nat>, i: nat)
    requires ValidIds(rows, ids) && i in FirstPerFamily(rows, ids)
    ensures exists k :: IsFirst(rows, ids, k) && ids[k] == i
  {
    var init, n := ids[..|ids| - 1], |ids| - 1;
    if i in FirstPerFamily(rows, init) {
      KeptIsFirst(rows, init, i);
      var k :| IsFirst(rows, init, k) && init[k] == i;
      assert forall j :: 0 <= j <= k ==> ids[j] == init[j];
      assert IsFirst(rows, ids, k);
    } else {
      FamiliesAre(rows, init, rows[ids[n]].family);
      assert forall j :: 0 <= j < n ==> ids[j] == init[j];
      assert IsFirst(rows, ids, n) && ids[n] == i;
    }
  }

  ghost predicate IsFirst(rows: Rows, ids: seq<nat>, k: int)
    requires ValidIds(rows, ids)
  {
    0 <= k < |ids| && forall j :: 0 <= j < k ==> rows[ids[j]].family != rows[ids[k]].family
  }

  lemma {:induction false} FamiliesAre(rows: Rows, ids: seq<nat>, f: nat)
    requires ValidIds(rows, ids)
    ensures f in Families(rows, ids) <==> exists k :: 0 <= k < |ids| && rows[ids[k]].family == f
  {
    if ids != [] {
      var init, n := ids[..|ids| - 1], |ids| - 1;
      FamiliesAre(rows, init, f);
      if k :| 0 <= k < |ids| && rows[ids[k]].family == f {
        assert k < n ==> rows[init[k]].family == f;
      }
      if k :| 0 <= k < |init| && rows[init[k]].family == f {
        assert rows[ids[k]].family == f;
      }
      assert rows[ids[n]].family == f ==> f in Families(rows, ids);
    }
  }

  lemma {:induction false} FamiliesAreKept(rows: Rows, ids: seq<nat>, f: nat)
    requires ValidIds(rows, ids) && f in Families(rows, ids)
    ensures exists i :: i in FirstPerFamily(rows, ids) && i < |rows| && rows[i].family == f
  {
    var init, last := ids[..|ids| - 1], ids[|ids| - 1];
    if f in Families(rows, init) {
      FamiliesAreKept(rows, init, f);
      var i :| i in FirstPerFamily(rows, init) && i < |rows| && rows[i].family == f;
      assert i in FirstPerFamily(rows, ids);
    } else {
      assert last in FirstPerFamily(rows, ids);
    }
  }

  /** In any table, forked families included: the list has one live row of the user for each family in
      which they have any, none newer than it there, and no other row. */
  lemma SessionsAreNewest(rows: Rows, userId: string)
    ensures var sessions := FirstPerFamily(rows, LiveSessions(rows, userId));
      && ValidIds(rows, sessions) && OnePerFamily(rows, sessions)
      && (forall i :: i in sessions ==> Alive(rows, userId, i))
      && (forall i: nat, j: nat :: i in sessions && Alive(rows, userId, j) && rows[j].family == rows[i].family ==>
            rows[j].createdAt <= rows[i].createdAt)
      && (forall j: nat :: Alive(rows, userId, j) ==> exists i :: i in sessions && rows[i].family == rows[j].family)
  {
    var found := LiveSessions(rows, userId);
    var sessions := FirstPerFamily(rows, found);
    SortedLive(rows, userId);
    KeptDiffer(rows, found);
    forall i | i in sessions ensures Alive(rows, userId, i) {
      KeptIsFirst(rows, found, i);
      assert i in found;
    }
    forall i: nat, j: nat | i in sessions && Alive(rows, userId, j) && rows[j].family == rows[i].family
      ensures rows[j].createdAt <= rows[i].createdAt
    {
      KeptIsFirst(rows, found, i);
      var k :| IsFirst(rows, found, k) && found[k] == i;
      assert LiveFor(rows, userId, j) && j in found;
      var l :| 0 <= l < |found| && found[l] == j;
      assert k <= l;
    }
    forall j: nat | Alive(rows, userId, j)
      ensures exists i :: i in sessions && rows[i].family == rows[j].family
    {
      assert LiveFor(rows, userId, j) && j in found;
      var l :| 0 <= l < |found| && found[l] == j;
      assert rows[found[l]].family == rows[j].family;
      FamiliesAre(rows, found, rows[j].family);
      FamiliesAreKept(rows, found, rows[j].family);
    }
  }
}
