/**
 The control-plane credential protocol (apps/vscode/src/controlPlaneAuth.ts): resolving, migrating and signing
 out step by step, with another window or process writing the secret store between any two steps.
 */
module Credentials {
  import opened Text

  /** The two places a credential can be: the secret store's row and the deprecated plaintext setting. */
  datatype World = World(secret: Option<string>, plain: Option<string>)

  /** Somebody else writes or deletes the secret, or the protocol takes its next step. */
  datatype Action = External(value: Option<string>) | Proceed

  function NonEmpty(v: Option<string>): (w: Option<string>) { if v == Some("") then None else v }

  // ---------------------------------------------------------- resolve, store

  datatype Resolution = Secret(token: string, legacyCleared: bool) | Migrated(token: string) | Absent | LegacyRefused

  /** The value the client may send. */
  function TokenForClient(r: Resolution): (t: Option<string>)
  {
    match r
    case Secret(token, _) => Some(token)
    case Migrated(token) => Some(token)
    case _ => None
  }

  /** What one resolution is given: the plaintext value read once, whether the scope is valid, and the operator's
      answer if there is anyone to ask. */
  datatype Request = Request(legacy: Option<string>, scopeValid: bool, confirm: Option<bool>)

  datatype Stage = Read | ClearLeftover(stored: string) | Confirm | Store | ClearPlain | Resolved(result: Resolution)

  /** `read` is the secret seen by the read step; `since` is the last external write since this resolution itself last
      read or stored the secret. */
  datatype Resolving = Resolving(world: World, stage: Stage, read: Option<string>, since: Option<Option<string>>)

  function Begin(req: Request, w: World): (s: Resolving)
  {
    Resolving(w,
              if req.scopeValid then Read
              else Resolved(if NonEmpty(req.legacy).Some? then LegacyRefused else Absent),
              None, None)
  }

  function Resolve(req: Request, s: Resolving, a: Action): (t: Resolving)
  {
    var legacy := NonEmpty(req.legacy);
    match a
    case External(v) =>
      s.(world := s.world.(secret := v), since := Some(v))
    case Proceed =>
      match s.stage
      case Read =>
        var stored := NonEmpty(s.world.secret);
        s.(read := stored, since := None,
           stage := if stored.Some? && legacy.Some? then ClearLeftover(stored.value)
                    else if stored.Some? then Resolved(Secret(stored.value, false))
                    else if legacy.None? then Resolved(Absent)
                    else Confirm)
      case ClearLeftover(stored) => s.(world := s.world.(plain := None), stage := Resolved(Secret(stored, true)))
      case Confirm => s.(stage := if req.confirm == Some(true) then Store else Resolved(LegacyRefused))
      case Store =>
        if legacy.None? then s
        else s.(world := s.world.(secret := legacy), since := None, stage := ClearPlain)
      case ClearPlain =>
        if legacy.None? then s
        else s.(world := s.world.(plain := None), stage := Resolved(Migrated(legacy.value)))
      case Resolved(_) => s
  }

  function Resolves(req: Request, s: Resolving, actions: seq<Action>): (t: Resolving)
  {
    if actions == [] then s
    else Resolve(req, Resolves(req, s, actions[..|actions| - 1]), actions[|actions| - 1])
  }

  /** The secret row is as this resolution left or saw it, unless somebody else wrote it since. */
  ghost predicate Row(s: Resolving, own: Option<string>)
  {
    s.world.secret == if s.since.Some? then s.since.value else own
  }

  /** Every stage that a migration passes through, and what holds there. */
  ghost predicate ResolveInv(req: Request, plain: Option<string>, s: Resolving)
  {
    var legacy := NonEmpty(req.legacy);
    && (s.stage.Read? || s.stage.Confirm? || s.stage.Store? || s.stage.ClearPlain? || s.stage.ClearLeftover? ==>
          s.world.plain == plain)
    && (s.stage.Confirm? || s.stage.Store? || s.stage.ClearPlain? ==> legacy.Some?)
    && (s.stage.Store? || s.stage.ClearPlain? ==> req.confirm == Some(true))
    && (s.stage.ClearPlain? ==> Row(s, legacy))
    && (s.stage.ClearLeftover? ==> s.read == Some(s.stage.stored) && Row(s, s.read) && legacy.Some?)
    && (s.stage.Resolved? ==>
          match s.stage.result
          case Secret(token, cleared) =>
            && s.read == Some(token) && Row(s, s.read) && (cleared <==> legacy.Some?)
            && s.world.plain == (if cleared then None else plain)
          case Migrated(token) =>
            && legacy == Some(token) && req.confirm == Some(true)
            && s.world.plain == None && Row(s, legacy)
          case Absent => legacy.None? && s.world.plain == plain
          case LegacyRefused => legacy.Some? && s.world.plain == plain)
  }

  lemma ResolveStepKeeps(req: Request, plain: Option<string>, s: Resolving, a: Action)
    requires ResolveInv(req, plain, s)
    ensures ResolveInv(req, plain, Resolve(req, s, a))
  {
  }

  lemma {:induction false} ResolveRunKeeps(req: Request, w: World, actions: seq<Action>)
    ensures ResolveInv(req, w.plain, Resolves(req, Begin(req, w), actions))
  {
    if actions != [] {
      ResolveRunKeeps(req, w, actions[..|actions| - 1]);
      ResolveStepKeeps(req, w.plain, Resolves(req, Begin(req, w), actions[..|actions| - 1]), actions[|actions| - 1]);
    }
  }

  /** The token is in at least one of the two stores. */
  predicate Kept(w: World, token: string) { w.secret == Some(token) || w.plain == Some(token) }

  /** MAIN: at every point of every interleaving of a resolution, the plaintext token is still in the setting until the
      resolution has a token to return. Then the setting is clear, so the two copies do not coexist, and the returned
      token is in the secret store if and only if nobody else's last write since replaced it there. */
  lemma MigrationNeverLosesTheToken(req: Request, w: World, actions: seq<Action>)
    requires NonEmpty(req.legacy).Some? && w.plain == req.legacy
    ensures var s := Resolves(req, Begin(req, w), actions);
            if s.stage.Resolved? && TokenForClient(s.stage.result).Some? then
              var token := TokenForClient(s.stage.result);
              s.world.plain == None && (s.world.secret == token <==> s.since == None || s.since == Some(token))
            else
              Kept(s.world, req.legacy.value)
  {
    ResolveRunKeeps(req, w, actions);
  }

  /** The secret that won is deleted between its read and the clearing of the leftover: neither copy is left. */
  lemma DeleteBeforeClearLosesBoth(stored: string, legacy: string)
    requires stored != "" && legacy != ""
    ensures var req, w := Request(Some(legacy), true, None), World(Some(stored), Some(legacy));
            var s := Resolve(req, Resolve(req, Resolve(req, Begin(req, w), Proceed), External(None)), Proceed);
            s.stage == Resolved(Secret(stored, true)) && s.world == World(None, None)
  {
  }

  /** MAIN: a refused plaintext is never returned. A returned token was read from the secret store, or is the
      plaintext after the operator confirmed its migration. */
  lemma RefusedPlaintextIsNeverReturned(req: Request, w: World, actions: seq<Action>)
    ensures var s := Resolves(req, Begin(req, w), actions);
            s.stage.Resolved? && TokenForClient(s.stage.result).Some? ==>
              var token := TokenForClient(s.stage.result).value;
              token != "" &&
              (s.read == Some(token) || (req.confirm == Some(true) && NonEmpty(req.legacy) == Some(token)))
  {
    ResolveRunKeeps(req, w, actions);
    ReadIsNonEmpty(req, Begin(req, w), actions);
  }

  lemma {:induction false} ReadIsNonEmpty(req: Request, s: Resolving, actions: seq<Action>)
    requires s.read != Some("")
    ensures Resolves(req, s, actions).read != Some("")
  {
    if actions != [] {
      ReadIsNonEmpty(req, s, actions[..|actions| - 1]);
    }
  }

  function Proceeds(n: nat): (actions: seq<Action>) { if n == 0 then [] else Proceeds(n - 1) + [Proceed] }

  lemma ProceedsMore(req: Request, s: Resolving, n: nat)
    ensures Resolves(req, s, Proceeds(n + 1)) == Resolve(req, Resolves(req, s, Proceeds(n)), Proceed)
    ensures Resolves(req, s, Proceeds(0)) == s
  {
  }

  /** MAIN: with nobody else writing, a resolution ends with the stored secret if there is one, and clears a plaintext
      left beside it; else with the plaintext, moved to the secret store, if the operator confirms; else it refuses it.
      An invalid scope refuses any plaintext. */
  lemma {:induction false} UndisturbedResolution(req: Request, w: World)
    ensures var s := Resolves(req, Begin(req, w), Proceeds(4));
            var stored, legacy := NonEmpty(w.secret), NonEmpty(req.legacy);
            if !req.scopeValid then
              s.stage == Resolved(if legacy.Some? then LegacyRefused else Absent) && s.world == w
            else if stored.Some? then
              && s.stage == Resolved(Secret(stored.value, legacy.Some?))
              && s.world == World(w.secret, if legacy.Some? then None else w.plain)
            else if legacy.None? then s.stage == Resolved(Absent) && s.world == w
            else if req.confirm == Some(true) then
              s.stage == Resolved(Migrated(legacy.value)) && s.world == World(legacy, None)
            else s.stage == Resolved(LegacyRefused) && s.world == w
  {
    hide Resolves, Proceeds;
    var b := Begin(req, w);
    ProceedsMore(req, b, 0);
    ProceedsMore(req, b, 1);
    ProceedsMore(req, b, 2);
    ProceedsMore(req, b, 3);
  }

  // ---------------------------------------------------------------- sign out

  datatype Exit = Capture | Revoke(captured: string) | Reread(captured: string) | Delete(captured: string)
                | ClearSetting(hadSecret: bool, rotated: bool) | SignedOut(hadSecret: bool, rotated: bool)

  /** History: `captured` by the first read, the last external write between the re-read and the delete, the
      value the delete erased, and the last external write of all. */
  datatype Leaving = Leaving(world: World, stage: Exit, captured: Option<string>, gap: Option<Option<string>>,
                             erased: Option<Option<string>>, outside: Option<Option<string>>)

  function SignOut(w: World, scopeValid: bool): (s: Leaving)
  {
    Leaving(w, if scopeValid then Capture else ClearSetting(false, false), None, None, None, None)
  }

  function Leave(s: Leaving, a: Action): (t: Leaving)
  {
    match a
    case External(v) =>
      s.(world := s.world.(secret := v), outside := Some(v), gap := if s.stage.Delete? then Some(v) else s.gap)
    case Proceed =>
      match s.stage
      case Capture =>
        var c := NonEmpty(s.world.secret);
        s.(captured := c, stage := if c.Some? then Revoke(c.value) else ClearSetting(false, false))
      case Revoke(c) => s.(stage := Reread(c))
      case Reread(c) =>
        s.(stage := if NonEmpty(s.world.secret) == Some(c) then Delete(c) else ClearSetting(true, true))
      case Delete(c) =>
        s.(erased := Some(s.world.secret), world := s.world.(secret := None), stage := ClearSetting(true, false))
      case ClearSetting(had, rotated) => s.(world := s.world.(plain := None), stage := SignedOut(had, rotated))
      case SignedOut(_, _) => s
  }

  function Leaves(s: Leaving, actions: seq<Action>): (t: Leaving)
  {
    if actions == [] then s else Leave(Leaves(s, actions[..|actions| - 1]), actions[|actions| - 1])
  }

  ghost predicate LeaveInv(w: World, s: Leaving)
  {
    && (s.erased.None? ==> s.world.secret == (if s.outside.Some? then s.outside.value else w.secret))
    && (s.stage.Capture? ==> s.captured.None? && s.erased.None?)
    && (s.stage.Revoke? ==> s.captured == Some(s.stage.captured) && s.erased.None? && s.gap.None?)
    && (s.stage.Reread? ==> s.captured == Some(s.stage.captured) && s.erased.None? && s.gap.None?)
    && (s.stage.Delete? ==>
          && s.captured == Some(s.stage.captured) && s.erased.None?
          && s.world.secret == (if s.gap.Some? then s.gap.value else Some(s.stage.captured)))
    && (s.stage.Capture? ==> s.gap.None?)
    && (s.erased.Some? ==> s.captured.Some? && s.erased.value == if s.gap.Some? then s.gap.value else s.captured)
    && (s.stage.ClearSetting? && s.stage.rotated ==> s.erased.None? && s.stage.hadSecret)
    && (s.stage.SignedOut? ==> s.world.plain == None && (s.stage.rotated ==> s.erased.None?))
    && (s.stage.SignedOut? || s.stage.ClearSetting? ==>
          (s.stage.hadSecret <==> s.captured.Some?) && (s.stage.hadSecret ==> s.erased.None? == s.stage.rotated))
  }

  lemma LeaveStepKeeps(w: World, s: Leaving, a: Action)
    requires LeaveInv(w, s)
    ensures LeaveInv(w, Leave(s, a))
  {
  }

  lemma {:induction false} LeaveRunKeeps(w: World, scopeValid: bool, actions: seq<Action>)
    ensures LeaveInv(w, Leaves(SignOut(w, scopeValid), actions))
  {
    if actions != [] {
      LeaveRunKeeps(w, scopeValid, actions[..|actions| - 1]);
      LeaveStepKeeps(w, Leaves(SignOut(w, scopeValid), actions[..|actions| - 1]), actions[|actions| - 1]);
    }
  }

  /** MAIN: what a sign-out erases is exactly the captured credential, or exactly the last value written in the
      gap between its re-read and its delete. It erases somebody else's credential if and only if one was written
      in that gap. */
  lemma SignOutErasesOnlyTheCaptured(w: World, scopeValid: bool, actions: seq<Action>)
    ensures var s := Leaves(SignOut(w, scopeValid), actions);
            s.erased.Some? ==>
              && s.captured.Some?
              && s.erased.value == (if s.gap.Some? then s.gap.value else s.captured)
              && (s.erased.value != s.captured <==> s.gap.Some? && s.gap.value != s.captured)
  {
    LeaveRunKeeps(w, scopeValid, actions);
  }

  /** MAIN: a rotation seen by the re-read is left alone: the secret row holds whatever was last written outside. */
  lemma RotationSurvivesSignOut(w: World, scopeValid: bool, actions: seq<Action>)
    ensures var s := Leaves(SignOut(w, scopeValid), actions);
            s.stage.SignedOut? ==>
              && s.world.plain == None
              && (s.stage.rotated ==> s.world.secret == (if s.outside.Some? then s.outside.value else w.secret))
              && (s.stage.hadSecret && !s.stage.rotated ==> s.erased.Some?)
  {
    LeaveRunKeeps(w, scopeValid, actions);
  }

  /** The gap is real: a credential obtained between the re-read and the delete is erased. */
  lemma GapErasesARotation(captured: string, rotated: string, plain: Option<string>)
    requires captured != "" && rotated != captured
    ensures var s := SignOut(World(Some(captured), plain), true);
            var atDelete := Leaves(s, [Proceed, Proceed, Proceed]);
            var done := Leave(Leave(Leave(atDelete, External(Some(rotated))), Proceed), Proceed);
            && done.erased == Some(Some(rotated)) && done.world == World(None, None)
            && done.stage == SignedOut(true, false)
  {
    var s, three := SignOut(World(Some(captured), plain), true), [Proceed, Proceed, Proceed];
    assert three[..2] == [Proceed, Proceed] && [Proceed, Proceed][..1] == [Proceed] && [Proceed][..0] == [];
    assert Leaves(s, [Proceed]) == Leave(s, Proceed);
    assert Leaves(s, [Proceed, Proceed]) == Leave(Leave(s, Proceed), Proceed);
    assert Leaves(s, three).stage == Delete(captured);
  }

  lemma LeavesMore(s: Leaving, n: nat)
    ensures Leaves(s, Proceeds(n + 1)) == Leave(Leaves(s, Proceeds(n)), Proceed) && Leaves(s, Proceeds(0)) == s
  {
  }

  /** MAIN: with nobody else writing, signing out of a valid scope erases the credential, and always the plaintext. */
  lemma {:induction false} UndisturbedSignOut(w: World, scopeValid: bool)
    ensures var s, had := Leaves(SignOut(w, scopeValid), Proceeds(5)), scopeValid && NonEmpty(w.secret).Some?;
            s.stage == SignedOut(had, false) && s.world == World(if had then None else w.secret, None)
  {
    hide Leaves, Proceeds;
    var b := SignOut(w, scopeValid);
    LeavesMore(b, 0);
    LeavesMore(b, 1);
    LeavesMore(b, 2);
    LeavesMore(b, 3);
    LeavesMore(b, 4);
  }
}
