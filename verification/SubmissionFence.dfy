/**
 The composer's submission fence (apps/vscode/media/chat.js): panel-minted tokens, one submission in flight per
 conversation, and bounded pending rows, over every interleaving of submits, results, switches and snapshots.
 */
module SubmissionFence {
  import opened Text

  const MAX_ROWS := 4

  datatype Row = Row(token: nat, conversation: string, text: string, accepted: bool, baseline: nat)

  datatype State = State(
    inFlight: map<nat, string>,   // token -> conversation key
    minted: nat,
    rows: seq<Row>,
    session: Option<string>,
    durable: seq<string>)         // the user texts of the last durable transcript

  const Fresh := State(map[], 0, [], None, [])

  /** A host result names its token; a legacy one does not. */
  datatype Step = Submit(goal: string) | Result(token: Option<nat>, ok: bool)
                | Snapshot(session: Option<string>, durable: seq<string>)

  function Conversation(session: Option<string>): (key: string) { if session.Some? then session.value else "" }

  predicate Locked(inFlight: map<nat, string>, key: string)
  {
    exists t :: t in inFlight && inFlight[t] == key
  }

  function Count(texts: seq<string>, text: string): (n: nat)
  {
    if texts == [] then 0
    else Count(texts[..|texts| - 1], text) + (if texts[|texts| - 1] == text then 1 else 0)
  }

  /** The newest rows within the bound. */
  function Bounded(rows: seq<Row>): (rs: seq<Row>)
    ensures |rs| <= MAX_ROWS
  {
    if |rows| > MAX_ROWS then rows[|rows| - MAX_ROWS..] else rows
  }

  /** The first submission of a conversation still in flight, in minting order. */
  function FirstHeld(inFlight: map<nat, string>, key: string, minted: nat): (t: Option<nat>)
    ensures t.Some? ==> t.value in inFlight && inFlight[t.value] == key && 1 <= t.value <= minted
    ensures t.None? ==> forall u :: 1 <= u <= minted && u in inFlight ==> inFlight[u] != key
  {
    if minted == 0 then None
    else
      var r := FirstHeld(inFlight, key, minted - 1);
      if r.Some? then r else if minted in inFlight && inFlight[minted] == key then Some(minted) else None
  }

  /** Rows a result settles: accepted ones wait for their durable twin, refused ones are dropped. */
  function Settle(rows: seq<Row>, hit: Row -> bool, ok: bool): (rs: seq<Row>)
  {
    if rows == [] then []
    else
      var init, row := Settle(rows[..|rows| - 1], hit, ok), rows[|rows| - 1];
      if !hit(row) then init + [row] else if ok then init + [row.(accepted := true)] else init
  }

  function Reconcile(rows: seq<Row>, durable: seq<string>): (rs: seq<Row>)
  {
    if rows == [] then []
    else
      var init, row := Reconcile(rows[..|rows| - 1], durable), rows[|rows| - 1];
      if row.accepted && Count(durable, row.text) > row.baseline then init else init + [row]
  }

  function OfToken(t: nat): (p: Row -> bool) { (r: Row) => r.token == t }
  function OfConversation(key: string): (p: Row -> bool) { (r: Row) => r.conversation == key }

  function Submitted(s: State, goal: string): (t: State)
  {
    var key := Conversation(s.session);
    if Locked(s.inFlight, key) || goal == "" then s
    else
      var token := s.minted + 1;
      s.(minted := token, inFlight := s.inFlight[token := key],
         rows := Bounded(s.rows + [Row(token, key, goal, false, Count(s.durable, goal))]))
  }

  function Settled(s: State, token: Option<nat>, ok: bool): (t: State)
  {
    match token
    case Some(t) =>
      if t !in s.inFlight then s
      else s.(inFlight := s.inFlight - {t}, rows := Settle(s.rows, OfToken(t), ok))
    case None =>
      var key := Conversation(s.session);
      var held := FirstHeld(s.inFlight, key, s.minted);
      if held.None? then s
      else s.(inFlight := s.inFlight - {held.value}, rows := Settle(s.rows, OfConversation(key), ok))
  }

  function Next(s: State, step: Step): (t: State)
  {
    match step
    case Submit(goal) => Submitted(s, goal)
    case Result(token, ok) => Settled(s, token, ok)
    case Snapshot(session, durable) =>
      var rows := if s.session.Some? && session != s.session then [] else s.rows;
      s.(session := session, durable := durable, rows := Reconcile(rows, durable))
  }

  function Run(s: State, steps: seq<Step>): (t: State)
  {
    if steps == [] then s else Next(Run(s, steps[..|steps| - 1]), steps[|steps| - 1])
  }

  // -------------------------------------------------------------- invariant

  ghost predicate RowFenced(s: State, r: Row)
  {
    && 1 <= r.token <= s.minted
    && (!r.accepted ==> r.token in s.inFlight && s.inFlight[r.token] == r.conversation)
  }

  ghost predicate RowsFenced(s: State, rows: seq<Row>)
  {
    && (forall i :: 0 <= i < |rows| ==> RowFenced(s, rows[i]))
    && (forall i, j :: 0 <= i < j < |rows| ==> rows[i].token < rows[j].token)
  }

  ghost predicate OnePerConversation(inFlight: map<nat, string>)
  {
    forall t, u :: t in inFlight && u in inFlight && inFlight[t] == inFlight[u] ==> t == u
  }

  /** At most one submission per conversation is in flight; tokens are minted once; every row still sending has
      its token in flight for its conversation; rows are bounded and in minting order. */
  ghost predicate Inv(s: State)
  {
    && (forall t :: t in s.inFlight ==> 1 <= t <= s.minted)
    && OnePerConversation(s.inFlight)
    && RowsFenced(s, s.rows)
    && |s.rows| <= MAX_ROWS
  }

  /** A result settles the rows it hits and leaves the rest as they are. */
  lemma {:induction false} SettleKeeps(s: State, t: State, rows: seq<Row>, hit: Row -> bool, ok: bool)
    requires RowsFenced(s, rows) && t.minted == s.minted
    requires forall r :: RowFenced(s, r) && !hit(r) && !r.accepted ==>
               r.token in t.inFlight && t.inFlight[r.token] == r.conversation
    ensures RowsFenced(t, Settle(rows, hit, ok))
    ensures |Settle(rows, hit, ok)| <= |rows|
    ensures forall i :: 0 <= i < |Settle(rows, hit, ok)| ==>
              rows != [] && Settle(rows, hit, ok)[i].token <= rows[|rows| - 1].token
  {
    if rows != [] {
      var init := rows[..|rows| - 1];
      SettleKeeps(s, t, init, hit, ok);
      assert RowFenced(s, rows[|rows| - 1]);
      assert init != [] ==> init[|init| - 1].token < rows[|rows| - 1].token;
    }
  }

  lemma {:induction false} ReconcileKeeps(s: State, rows: seq<Row>, durable: seq<string>)
    requires RowsFenced(s, rows)
    ensures RowsFenced(s, Reconcile(rows, durable))
    ensures |Reconcile(rows, durable)| <= |rows|
    ensures forall i :: 0 <= i < |Reconcile(rows, durable)| ==>
              rows != [] && Reconcile(rows, durable)[i].token <= rows[|rows| - 1].token
  {
    if rows != [] {
      var init := rows[..|rows| - 1];
      ReconcileKeeps(s, init, durable);
      assert RowFenced(s, rows[|rows| - 1]);
      assert init != [] ==> init[|init| - 1].token < rows[|rows| - 1].token;
    }
  }

  lemma SubmitKeeps(s: State, goal: string)
    requires Inv(s)
    ensures Inv(Submitted(s, goal))
  {
    var t := Submitted(s, goal);
    if t != s {
      var rows := s.rows + [Row(t.minted, Conversation(s.session), goal, false, Count(s.durable, goal))];
      forall i | 0 <= i < |rows| ensures RowFenced(t, rows[i]) {
        if i < |s.rows| {
          assert RowFenced(s, s.rows[i]);
        }
      }
      var k := if |rows| > MAX_ROWS then |rows| - MAX_ROWS else 0;
      assert t.rows == rows[k..];
      assert RowsFenced(t, rows);
    }
  }

  lemma ResultKeeps(s: State, token: Option<nat>, ok: bool)
    requires Inv(s)
    ensures Inv(Settled(s, token, ok))
  {
    hide Settle;
    var t := Settled(s, token, ok);
    if t != s {
      if token.Some? {
        SettleKeeps(s, t, s.rows, OfToken(token.value), ok);
      } else {
        SettleKeeps(s, t, s.rows, OfConversation(Conversation(s.session)), ok);
      }
    }
  }

  lemma StepKeeps(s: State, step: Step)
    requires Inv(s)
    ensures Inv(Next(s, step))
    ensures s.minted <= Next(s, step).minted
  {
    hide Settle, Reconcile;
    match step
    case Submit(goal) => SubmitKeeps(s, goal);
    case Result(token, ok) => ResultKeeps(s, token, ok);
    case Snapshot(session, durable) =>
      ReconcileKeeps(s, if s.session.Some? && session != s.session then [] else s.rows, durable);
      var t := Next(s, step);
      assert forall i :: 0 <= i < |t.rows| ==> RowFenced(s, t.rows[i]);
      assert forall r :: RowFenced(s, r) ==> RowFenced(t, r);
  }

  /** MAIN: the fence holds in every run. */
  lemma {:induction false} RunKeeps(s: State, steps: seq<Step>)
    requires Inv(s)
    ensures Inv(Run(s, steps)) && s.minted <= Run(s, steps).minted
  {
    if steps != [] {
      RunKeeps(s, steps[..|steps| - 1]);
      StepKeeps(Run(s, steps[..|steps| - 1]), steps[|steps| - 1]);
    }
  }

  /** MAIN: a token is minted once: whatever happened before, a submission that goes through carries a token that
      no earlier state had in flight or in a row. */
  lemma TokensAreFresh(s: State, steps: seq<Step>, goal: string)
    requires Inv(s) && Next(Run(s, steps), Submit(goal)) != Run(s, steps)
    ensures var t := Next(Run(s, steps), Submit(goal));
            && t.minted in t.inFlight && t.minted !in Run(s, steps).inFlight && t.minted !in s.inFlight
            && (forall i :: 0 <= i < |s.rows| ==> s.rows[i].token != t.minted)
            && t.minted > s.minted
  {
    RunKeeps(s, steps);
    assert forall i :: 0 <= i < |s.rows| ==> RowFenced(s, s.rows[i]);
  }

  /** The step is a result for this submission: by its token, or a legacy one while its conversation is viewed. */
  predicate Settles(s: State, step: Step, token: nat, key: string)
  {
    step.Result? && (step.token == Some(token) || (step.token.None? && Conversation(s.session) == key))
  }

  lemma StepHoldsLock(s: State, step: Step, token: nat)
    requires Inv(s) && token in s.inFlight && !Settles(s, step, token, s.inFlight[token])
    ensures token in Next(s, step).inFlight && Next(s, step).inFlight[token] == s.inFlight[token]
  {
    hide Settle, Reconcile, Bounded, Count;
  }

  /** MAIN: a submission locks its conversation until a result settles it. */
  lemma {:induction false} LockHolds(s: State, steps: seq<Step>, token: nat)
    requires Inv(s) && token in s.inFlight
    requires forall i :: 0 <= i < |steps| ==> !Settles(Run(s, steps[..i]), steps[i], token, s.inFlight[token])
    ensures var t := Run(s, steps);
            token in t.inFlight && t.inFlight[token] == s.inFlight[token] && Locked(t.inFlight, s.inFlight[token])
  {
    hide Next, Inv, Settles;
    if steps != [] {
      var init := steps[..|steps| - 1];
      forall i | 0 <= i < |init| ensures !Settles(Run(s, init[..i]), init[i], token, s.inFlight[token]) {
        assert init[..i] == steps[..i];
      }
      LockHolds(s, init, token);
      RunKeeps(s, init);
      assert !Settles(Run(s, steps[..|init|]), steps[|init|], token, s.inFlight[token]);
      StepHoldsLock(Run(s, init), steps[|init|], token);
    }
  }

  /** The composer refuses to submit: something of the conversation it shows is in flight. */
  predicate ComposerLocked(s: State) { Locked(s.inFlight, Conversation(s.session)) }

  /** Another submission of the conversation shown is in flight. */
  predicate OtherInFlight(s: State, token: nat)
  {
    exists t :: t in s.inFlight && t != token && s.inFlight[t] == Conversation(s.session)
  }

  /** MAIN: while a submission is unsettled, the composer stays locked if and only if it still shows the conversation
      the submission was made in, or has another one of the conversation shown in flight. Otherwise the next submit
      goes through beside the unsettled one. */
  lemma {:induction false} ComposerLockedIff(s: State, steps: seq<Step>, token: nat, goal: string)
    requires Inv(s) && token in s.inFlight && goal != ""
    requires forall i :: 0 <= i < |steps| ==> !Settles(Run(s, steps[..i]), steps[i], token, s.inFlight[token])
    ensures var t := Run(s, steps);
            var u := Next(t, Submit(goal));
            && (ComposerLocked(t) <==> Conversation(t.session) == s.inFlight[token] || OtherInFlight(t, token))
            && (ComposerLocked(t) ==> u == t)
            && (!ComposerLocked(t) ==>
                  && u.inFlight == t.inFlight[u.minted := Conversation(t.session)]
                  && u.minted != token && token in u.inFlight)
  {
    hide Run, Settles, Bounded, Count;
    LockHolds(s, steps, token);
    RunKeeps(s, steps);
  }

  function OneSent(first: string, session: Option<string>): (s: State)
  {
    State(map[1 := ""], 1, [Row(1, "", first, false, 0)], session, [])
  }

  lemma FirstSent(first: string)
    requires first != ""
    ensures Next(Fresh, Submit(first)) == OneSent(first, None)
  {
  }

  lemma SessionNamed(first: string, name: string)
    ensures Next(OneSent(first, None), Snapshot(Some(name), [])) == OneSent(first, Some(name))
  {
    var rows := OneSent(first, None).rows;
    assert rows[..0] == [];
    assert Reconcile(rows[..0], []) == [];
  }

  /** Submitting before a session is known, and then being told its name: the composer is unlocked although nothing
      was settled, and a second submit puts two in flight, with both rows pending. */
  lemma NamingTheSessionUnlocks(first: string, second: string, name: string)
    requires first != "" && second != "" && name != ""
    ensures var s := Next(Next(Next(Fresh, Submit(first)), Snapshot(Some(name), [])), Submit(second));
            s.inFlight == map[1 := "", 2 := name] && |s.rows| == 2 && Inv(s)
  {
    hide Next, Inv;
    FirstSent(first);
    SessionNamed(first, name);
    var s := OneSent(first, Some(name));
    OneSentIsSound(first, name);
    SubmitAddsRow(s, second);
    StepKeeps(s, Submit(second));
  }

  lemma OneSentIsSound(first: string, name: string)
    requires name != ""
    ensures var s := OneSent(first, Some(name)); Inv(s) && !ComposerLocked(s)
  {
  }

  /** Membership after settling: rows that are not hit stay, hit rows turn accepted or go. */
  lemma {:induction false} SettleMembers(rows: seq<Row>, hit: Row -> bool, ok: bool, r: Row)
    ensures r in Settle(rows, hit, ok) <==>
              || (r in rows && !hit(r))
              || (ok && r.accepted && exists q :: q in rows && hit(q) && r == q.(accepted := true))
  {
    if rows != [] {
      var init, row := rows[..|rows| - 1], rows[|rows| - 1];
      SettleMembers(init, hit, ok, r);
      assert rows == init + [row];
      assert forall q :: q in rows <==> q in init || q == row;
    }
  }

  /** MAIN: a result with a known token releases exactly that submission; its row is marked accepted or dropped, and
      every other row is untouched. One with an unknown token changes nothing. */
  lemma ResultSettlesItsRow(s: State, token: nat, ok: bool)
    requires Inv(s)
    ensures token !in s.inFlight ==> Next(s, Result(Some(token), ok)) == s
    ensures token in s.inFlight ==>
            var t := Next(s, Result(Some(token), ok));
            && t.inFlight == s.inFlight - {token}
            && (forall r: Row :: r.token != token ==> (r in t.rows <==> r in s.rows))
            && (forall r :: r in t.rows && r.token == token ==> ok && r.accepted)
            && (forall r :: r in s.rows && r.token == token && ok ==> r.(accepted := true) in t.rows)
            && !Locked(t.inFlight, s.inFlight[token])
  {
    hide Settle;
    var t := Next(s, Result(Some(token), ok));
    forall r: Row | token in s.inFlight
      ensures r in t.rows <==>
                || (r in s.rows && r.token != token)
                || (ok && r.accepted && exists q :: q in s.rows && q.token == token && r == q.(accepted := true))
    {
      SettleMembers(s.rows, OfToken(token), ok, r);
      assert forall q :: OfToken(token)(q) <==> q.token == token;
    }
  }

  /** A snapshot drops a pending row exactly when it is accepted and its text has gained a durable twin since it was
      submitted. */
  lemma {:induction false} ReconcileMembers(rows: seq<Row>, durable: seq<string>, r: Row)
    ensures r in Reconcile(rows, durable) <==> r in rows && !(r.accepted && Count(durable, r.text) > r.baseline)
  {
    hide Count;
    if rows != [] {
      var init, row := rows[..|rows| - 1], rows[|rows| - 1];
      ReconcileMembers(init, durable, r);
      assert rows == init + [row];
    }
  }

  // ------------------------------------------------------- the life of a row

  /** Counting is multiplicity. */
  lemma {:induction false} CountIsMultiplicity(texts: seq<string>, text: string)
    ensures Count(texts, text) == multiset(texts)[text]
  {
    if texts != [] {
      CountIsMultiplicity(texts[..|texts| - 1], text);
      assert texts == texts[..|texts| - 1] + [texts[|texts| - 1]];
    }
  }

  /** A submit that goes through ends the rows with the goal, sending, under the new token and the conversation shown,
      with as many durable twins as there are now; of the rows before it only the oldest can go, and only at the
      bound. */
  lemma SubmitAddsRow(s: State, goal: string)
    requires Inv(s) && !ComposerLocked(s) && goal != ""
    ensures var t := Next(s, Submit(goal));
            && t.rows != [] && t.minted == s.minted + 1
            && t.rows[|t.rows| - 1] ==
                 Row(t.minted, Conversation(s.session), goal, false, multiset(s.durable)[goal])
            && t.rows[..|t.rows| - 1] == (if |s.rows| < MAX_ROWS then s.rows else s.rows[1..])
            && t.inFlight == s.inFlight[t.minted := Conversation(s.session)]
  {
    CountIsMultiplicity(s.durable, goal);
  }

  /** The step shows another conversation. */
  predicate Switches(s: State, step: Step)
  {
    step.Snapshot? && s.session.Some? && step.session != s.session
  }

  /** The step is the result of row `r`: by its token, or a legacy one that finds something of its conversation in
      flight. */
  predicate Answers(s: State, step: Step, r: Row)
  {
    && step.Result?
    && match step.token
       case Some(t) => t == r.token && t in s.inFlight
       case None => r.conversation == Conversation(s.session) && Locked(s.inFlight, r.conversation)
  }

  /** The step takes row `r` away: a refusal, a switch, a submit past the bound while it is the oldest, or, once it is
      accepted, a transcript with one more twin than when it was submitted. */
  ghost predicate TakesAway(s: State, step: Step, r: Row)
  {
    match step
    case Submit(goal) => !ComposerLocked(s) && goal != "" && |s.rows| == MAX_ROWS && r == s.rows[0]
    case Result(_, ok) => Answers(s, step, r) && !ok
    case Snapshot(_, durable) => Switches(s, step) || (r.accepted && multiset(durable)[r.text] > r.baseline)
  }

  /** The row after a step that does not take it away. */
  function After(s: State, step: Step, r: Row): (q: Row) { if Answers(s, step, r) then r.(accepted := true) else r }

  lemma SubmitSpares(s: State, goal: string, r: Row)
    requires Inv(s) && r in s.rows
    ensures var t := Next(s, Submit(goal));
            if TakesAway(s, Submit(goal), r) then r !in t.rows else r in t.rows
  {
    hide Count;
    if !ComposerLocked(s) && goal != "" {
      SubmitAddsRow(s, goal);
      var t := Next(s, Submit(goal));
      var last := |t.rows| - 1;
      assert t.rows == t.rows[..last] + [t.rows[last]];
      var n :| 0 <= n < |s.rows| && s.rows[n] == r;
      assert RowFenced(s, s.rows[n]);
      if |s.rows| == MAX_ROWS && n > 0 {
        assert t.rows[..last][n - 1] == r;
      }
    }
  }

  lemma LegacyFinds(s: State)
    requires Inv(s)
    ensures FirstHeld(s.inFlight, Conversation(s.session), s.minted).Some? <==> ComposerLocked(s)
  {
  }

  lemma ResultSpares(s: State, token: Option<nat>, ok: bool, r: Row)
    requires Inv(s) && r in s.rows
    ensures var t, step := Next(s, Result(token, ok)), Result(token, ok);
            if TakesAway(s, step, r) then forall q :: q in t.rows ==> q.token != r.token
            else After(s, step, r) in t.rows
  {
    hide Settle, FirstHeld;
    var step := Result(token, ok);
    var t := Next(s, step);
    LegacyFinds(s);
    if t.rows != s.rows || Answers(s, step, r) {
      var hit := if token.Some? then OfToken(token.value) else OfConversation(Conversation(s.session));
      assert t.rows == Settle(s.rows, hit, ok);
      forall q: Row ensures q in t.rows <==>
                         || (q in s.rows && !hit(q))
                         || (ok && q.accepted && exists p :: p in s.rows && hit(p) && q == p.(accepted := true))
      {
        SettleMembers(s.rows, hit, ok, q);
      }
      assert hit(r) <==> Answers(s, step, r);
      TokensTellRowsApart(s, r);
    }
  }

  lemma TokensTellRowsApart(s: State, r: Row)
    requires Inv(s) && r in s.rows
    ensures forall q :: q in s.rows && q.token == r.token ==> q == r
  {
  }

  /** A transcript is what the next submit is compared with; it settles nothing and mints nothing. */
  lemma SnapshotEffects(s: State, session: Option<string>, durable: seq<string>)
    ensures var t := Next(s, Snapshot(session, durable));
            t.session == session && t.durable == durable && t.inFlight == s.inFlight && t.minted == s.minted
  {
  }

  /** MAIN: what a step does to a pending row: it goes exactly when the step takes it away, and otherwise stays with its
      text and its baseline, accepted exactly if it was or the step answers it. */
  lemma RowFate(s: State, step: Step, r: Row)
    requires Inv(s) && r in s.rows
    ensures TakesAway(s, step, r) ==> forall q :: q in Next(s, step).rows ==> q.token != r.token
    ensures !TakesAway(s, step, r) ==> After(s, step, r) in Next(s, step).rows
  {
    hide Settle, Reconcile, Count, Bounded;
    StepKeeps(s, step);
    match step
    case Submit(goal) =>
      SubmitSpares(s, goal, r);
      if TakesAway(s, step, r) {
        SubmitAddsRow(s, goal);
        TokensTellRowsApart(s, r);
        GoneByToken(s, goal, r);
      }
    case Result(token, ok) => ResultSpares(s, token, ok, r);
    case Snapshot(session, durable) =>
      CountIsMultiplicity(durable, r.text);
      var rows := if Switches(s, step) then [] else s.rows;
      forall q: Row
        ensures q in Next(s, step).rows <==> q in rows && !(q.accepted && Count(durable, q.text) > q.baseline)
      {
        ReconcileMembers(rows, durable, q);
      }
      TokensTellRowsApart(s, r);
  }

  lemma GoneByToken(s: State, goal: string, r: Row)
    requires Inv(s) && r in s.rows && TakesAway(s, Submit(goal), r)
    ensures forall q :: q in Next(s, Submit(goal)).rows ==> q.token != r.token
  {
    hide Count;
    var t := Next(s, Submit(goal));
    SubmitAddsRow(s, goal);
    var last := |t.rows| - 1;
    assert t.rows == s.rows[1..] + [t.rows[last]];
    assert RowFenced(s, s.rows[0]);
    forall q | q in t.rows ensures q.token != r.token {
      var n :| 0 <= n < |t.rows| && t.rows[n] == q;
      assert n < last ==> q == s.rows[n + 1];
    }
  }

  /** The row after a run of steps none of which takes it away. */
  function Later(s: State, steps: seq<Step>, r: Row): (q: Row)
  {
    if steps == [] then r
    else
      var init := steps[..|steps| - 1];
      After(Run(s, init), steps[|steps| - 1], Later(s, init, r))
  }

  ghost predicate Spared(s: State, steps: seq<Step>, r: Row)
  {
    steps == [] ||
    (var init := steps[..|steps| - 1];
     Spared(s, init, r) && !TakesAway(Run(s, init), steps[|steps| - 1], Later(s, init, r)))
  }

  /** MAIN: over every run none of whose steps refuses it, switches away from it, pushes it past the bound or, once it
      is accepted, brings its durable twin, a pending row stays, with its text and baseline. */
  lemma {:induction false} PendingRowStays(s: State, steps: seq<Step>, r: Row)
    requires Inv(s) && r in s.rows && Spared(s, steps, r)
    ensures Later(s, steps, r) in Run(s, steps).rows
    ensures Later(s, steps, r) == r || Later(s, steps, r) == r.(accepted := true)
  {
    hide Next, Inv, TakesAway;
    if steps != [] {
      var init := steps[..|steps| - 1];
      PendingRowStays(s, init, r);
      RunKeeps(s, init);
      RowFate(Run(s, init), steps[|steps| - 1], Later(s, init, r));
    }
  }

  lemma SettleNothing(hit: Row -> bool, ok: bool)
    ensures Settle([], hit, ok) == []
  {
  }

  lemma SettleNext(rows: seq<Row>, k: nat, hit: Row -> bool, ok: bool)
    requires k < |rows|
    ensures var init := Settle(rows[..k], hit, ok);
            Settle(rows[..k + 1], hit, ok) ==
              if !hit(rows[k]) then init + [rows[k]] else if ok then init + [rows[k].(accepted := true)] else init
  {
    assert rows[..k + 1][..k] == rows[..k];
  }

  // ---------------------------------------------------------------- the panel

  class Composer {
    var inFlight: map<nat, string>
    var minted: nat
    var rows: seq<Row>
    var session: Option<string>
    var durable: seq<string>

    constructor ()
      ensures Now() == Fresh
    {
      inFlight, minted, rows, session, durable := map[], 0, [], None, [];
    }

    ghost function Now(): (s: State)
      reads this
    {
      State(inFlight, minted, rows, session, durable)
    }

    method CountDurable(texts: seq<string>, text: string) returns (n: nat)
      ensures n == Count(texts, text)
    {
      n := 0;
      for i := 0 to |texts|
        invariant n == Count(texts[..i], text)
      {
        assert texts[..i + 1][..i] == texts[..i];
        if texts[i] == text {
          n := n + 1;
        }
      }
      assert texts[..|texts|] == texts;
    }

    method RequestStart(goal: string)
      modifies this
      ensures Now() == Next(old(Now()), Submit(goal))
    {
      hide Count, Bounded;
      var key := Conversation(session);
      if exists t :: t in inFlight && inFlight[t] == key {
        return;
      }
      if goal == "" {
        return;
      }
      minted := minted + 1;
      var token := minted;
      inFlight := inFlight[token := key];
      var baseline := CountDurable(durable, goal);
      rows := rows + [Row(token, key, goal, false, baseline)];
      TrimRows();
    }

    /** Drop the oldest rows past the bound. */
    method TrimRows()
      modifies this`rows
      ensures rows == Bounded(old(rows))
    {
      while |rows| > MAX_ROWS
        invariant |rows| <= |old(rows)| && rows == old(rows)[|old(rows)| - |rows|..]
        invariant |rows| >= MAX_ROWS || rows == old(rows)
      {
        rows := rows[1..];
      }
    }

    /** Settle rows in place, walking the list with a cursor that steps back over each removed row. */
    method SettleRows(byToken: Option<nat>, key: string, ok: bool)
      modifies this`rows
      ensures rows == Settle(old(rows), if byToken.Some? then OfToken(byToken.value) else OfConversation(key), ok)
    {
      hide Settle;
      ghost var hit := if byToken.Some? then OfToken(byToken.value) else OfConversation(key);
      ghost var seen := 0;
      var i := 0;
      SettleNothing(hit, ok);
      while i < |rows|
        invariant 0 <= i <= |rows| && seen + (|rows| - i) == |old(rows)|
        invariant rows[..i] == Settle(old(rows)[..seen], hit, ok)
        invariant rows[i..] == old(rows)[seen..]
        decreases |rows| - i
      {
        var row := rows[i];
        assert row == old(rows)[seen] by { assert rows[i..][0] == old(rows)[seen..][0]; }
        SettleNext(old(rows), seen, hit, ok);
        ghost var before, rest := rows[..i], rows[i..];
        assert rest[1..] == old(rows)[seen + 1..];
        if (if byToken.Some? then row.token == byToken.value else row.conversation == key) {
          if ok {
            rows := rows[..i] + [row.(accepted := true)] + rows[i + 1..];
            i := i + 1;
            assert rows[..i] == before + [row.(accepted := true)];
          } else {
            rows := rows[..i] + rows[i + 1..];
            assert rows[..i] == before;
          }
        } else {
          i := i + 1;
          assert rows[..i] == before + [row];
        }
        assert rows[i..] == rest[1..];
        seen := seen + 1;
      }
      assert old(rows)[..seen] == old(rows);
      assert rows[..i] == rows;
    }

    method StartResult(token: Option<nat>, ok: bool)
      modifies this
      ensures Now() == Next(old(Now()), Result(token, ok))
    {
      var key := Conversation(session);
      if token.Some? {
        if token.value !in inFlight {
          return;
        }
        inFlight := inFlight - {token.value};
      } else {
        var held := FirstHeld(inFlight, key, minted);
        if held.None? {
          return;
        }
        inFlight := inFlight - {held.value};
      }
      SettleRows(token, key, ok);
    }

    method OnSnapshot(newSession: Option<string>, transcript: seq<string>)
      modifies this
      ensures Now() == Next(old(Now()), Snapshot(newSession, transcript))
    {
      if session.Some? && newSession != session {
        rows := [];
      }
      session := newSession;
      durable := transcript;
      ghost var before := rows;
      var kept: seq<Row> := [];
      for i := 0 to |rows|
        invariant rows == before && session == newSession && durable == transcript
        invariant inFlight == old(inFlight) && minted == old(minted)
        invariant kept == Reconcile(rows[..i], transcript)
      {
        assert rows[..i + 1][..i] == rows[..i];
        var row := rows[i];
        var n := CountDurable(transcript, row.text);
        if row.accepted && n > row.baseline {
          continue;
        }
        kept := kept + [row];
      }
      assert rows[..|rows|] == rows;
      rows := kept;
    }
  }
}
