/**
  The device login as several commands run it: processes that share one keyring entry, one file
  lock and one issuer. Only the steps below are atomic, so a run is any interleaving of them,
  with crashes, lost answers and requests that arrive after their sender is gone.
*/
module DeviceProtocol {
  import opened Options

  const MARGIN: int := 60

  // ---------------------------------------------------------------- the issuer

  /** A refresh token: the login it descends from, and how many rotations ago that was. */
  datatype Token = Token(family: nat, generation: nat)

  /** `current` is the newest generation handed out. A revoked family honours nothing. */
  datatype Family = Family(current: nat, live: bool)

  datatype Issuer = Issuer(families: map<nat, Family>, honoured: nat, replays: nat)

  predicate Known(s: Issuer, t: Token) {
    t.family in s.families && t.generation <= s.families[t.family].current
  }

  predicate Spent(s: Issuer, t: Token) {
    t.family in s.families && t.generation < s.families[t.family].current
  }

  /** What the issuer makes of a token it could honour. */
  datatype Mood = Unreached | Declined | Lost | Answered(hasAccess: bool, carries: bool, expires: int, ends: int)

  /** The saved session. A body without a refresh token is stored with none. */
  datatype Saved = Saved(token: Option<Token>, hasAccess: bool, expires: int, ends: int)

  datatype Reply = Trouble | InvalidGrant | Tokens(got: Saved)

  /** A spent token is a replay and ends its family; a live one rotates. */
  function Present(s: Issuer, token: Option<Token>, mood: Mood): (r: (Issuer, Reply)) {
    if mood.Unreached? then (s, Trouble)
    else if token.None? || !Known(s, token.value) then (s, InvalidGrant)
    else
      var t := token.value;
      var family := s.families[t.family];
      if t.generation < family.current then
        (s.(families := s.families[t.family := family.(live := false)], replays := s.replays + 1), InvalidGrant)
      else if !family.live then (s, InvalidGrant)
      else if mood.Declined? then (s, Trouble)
      else
        var next := Token(t.family, t.generation + 1);
        var s1 := s.(families := s.families[t.family := family.(current := next.generation)], honoured := s.honoured + 1);
        if mood.Lost? || !mood.hasAccess then (s1, Trouble)
        else (s1, Tokens(Saved(if mood.carries then Some(next) else None, true, mood.expires, mood.ends)))
  }

  function Revoke(s: Issuer, token: Option<Token>): Issuer {
    if token.Some? && Known(s, token.value) then
      s.(families := s.families[token.value.family := s.families[token.value.family].(live := false)])
    else s
  }

  // ---------------------------------------------------------------- the processes

  datatype Goal = Refreshing | Leaving

  datatype Phase =
    | Idle
    | Waiting(goal: Goal)
    | Holding(goal: Goal)
    | Posting(token: Option<Token>)
    | Rotated(used: Token, got: Saved)
    | Revoking(ending: Option<Token>)
    | Forgetting
    | LoggedIn(got: Saved)

  predicate Locked(p: Phase) {
    p.Holding? || p.Posting? || p.Rotated? || p.Revoking? || p.Forgetting?
  }

  /** `undelivered` counts honoured refreshes never stored; `abandoned`, requests still out when their sender was not. */
  datatype World = World(
    keyring: Option<Saved>,
    holder: Option<nat>,
    phases: map<nat, Phase>,
    issuer: Issuer,
    adrift: set<Token>,
    undelivered: nat,
    abandoned: nat)

  function PhaseOf(w: World, p: nat): Phase {
    if p in w.phases then w.phases[p] else Idle
  }

  function Go(w: World, p: nat, phase: Phase): World {
    w.(phases := w.phases[p := phase])
  }

  /** Leaves the lock and the call. */
  function Release(w: World, p: nat): World {
    Go(w, p, Idle).(holder := None)
  }

  predicate Fresh(s: Saved, now: int) {
    s.hasAccess && s.expires - MARGIN > now
  }

  // ---------------------------------------------------------------- the steps

  datatype Op =
    | Call(p: nat, now: int)
    | Logout(p: nat)
    | Acquire(p: nat)
    | Decide(p: nat, now: int)
    | Serve(p: nat, mood: Mood)
    | Save(p: nat, fit: Fit)
    | RevokeStep(p: nat, reached: bool)
    | Forget(p: nat, deleted: bool)
    | Approve(p: nat, family: nat, mood: Mood)
    | SaveLogin(p: nat, fit: Fit)
    | Abandon(p: nat)
    | Arrive(token: Token, mood: Mood)

  /** `access_token` before the lock: only a stale session goes on to wait for it. */
  function DoCall(w: World, p: nat, now: int): World {
    if PhaseOf(w, p).Idle? && w.keyring.Some? && !Fresh(w.keyring.value, now) then Go(w, p, Waiting(Refreshing)) else w
  }

  function DoLogout(w: World, p: nat): World {
    if PhaseOf(w, p).Idle? then Go(w, p, Waiting(Leaving)) else w
  }

  function DoAcquire(w: World, p: nat): World {
    if PhaseOf(w, p).Waiting? && w.holder.None? then Go(w, p, Holding(PhaseOf(w, p).goal)).(holder := Some(p)) else w
  }

  /** Under the lock the session is read again, and another command's refresh is used as it is. */
  function DoDecide(w: World, p: nat, now: int): World {
    if !PhaseOf(w, p).Holding? then w
    else if w.keyring.None? then Release(w, p)
    else
      var session := w.keyring.value;
      if PhaseOf(w, p).goal.Leaving? then Go(w, p, Revoking(session.token))
      else if Fresh(session, now) then Release(w, p)
      else if session.ends <= now then Go(w, p, Forgetting)
      else Go(w, p, Posting(session.token))
  }

  /** The issuer answers. An honoured refresh that brings no new token to store is undelivered. */
  function DoServe(w: World, p: nat, mood: Mood): World {
    if !PhaseOf(w, p).Posting? then w else
    var token := PhaseOf(w, p).token;
    var (issuer, reply) := Present(w.issuer, token, mood);
    var missing := issuer.honoured > w.issuer.honoured && (!reply.Tokens? || reply.got.token.None?);
    var w1 := w.(issuer := issuer, undelivered := w.undelivered + if missing then 1 else 0);
    match reply
    case Trouble => Release(w1, p)
    case InvalidGrant => Go(w1, p, Forgetting)
    case Tokens(got) => Go(w1, p, Rotated(token.value, got))
  }

  /** Storing a session: whole, without its access token when that does not fit, or not at all. */
  datatype Fit = Whole | Trimmed | TooLarge

  function Stored(got: Saved, fit: Fit): Saved {
    if fit.Trimmed? then got.(hasAccess := false) else got
  }

  function DoSave(w: World, p: nat, fit: Fit): World {
    if !PhaseOf(w, p).Rotated? then w
    else if fit.TooLarge? then Release(w, p).(undelivered := w.undelivered + 1)
    else Release(w, p).(keyring := Some(Stored(PhaseOf(w, p).got, fit)))
  }

  function DoRevoke(w: World, p: nat, reached: bool): World {
    if !PhaseOf(w, p).Revoking? then w
    else Go(w, p, Forgetting).(issuer := if reached then Revoke(w.issuer, PhaseOf(w, p).ending) else w.issuer)
  }

  /** A keyring that refuses the delete is not complained of, and keeps the session. */
  function DoForget(w: World, p: nat, deleted: bool): World {
    if !PhaseOf(w, p).Forgetting? then w
    else Release(w, p).(keyring := if deleted then None else w.keyring)
  }

  /** A login approved in the browser starts a family of its own. It takes no lock. */
  function DoApprove(w: World, p: nat, family: nat, mood: Mood): World {
    if !PhaseOf(w, p).Idle? || family in w.issuer.families || !mood.Answered? || !mood.hasAccess then w
    else Go(w, p, LoggedIn(Saved(if mood.carries then Some(Token(family, 0)) else None, true, mood.expires, mood.ends)))
         .(issuer := w.issuer.(families := w.issuer.families[family := Family(0, true)]))
  }

  function DoSaveLogin(w: World, p: nat, fit: Fit): World {
    if !PhaseOf(w, p).LoggedIn? then w
    else if fit.TooLarge? then Go(w, p, Idle)
    else Go(w, p, Idle).(keyring := Some(Stored(PhaseOf(w, p).got, fit)))
  }

  /** A crash, or a time-out: the lock is freed, and a request already sent stays on its way. */
  function DoAbandon(w: World, p: nat): World {
    var phase := PhaseOf(w, p);
    var w1 := if Locked(phase) then Release(w, p) else Go(w, p, Idle);
    if phase.Posting? then
      w1.(abandoned := w.abandoned + 1, adrift := if phase.token.Some? then w.adrift + {phase.token.value} else w.adrift)
    else if phase.Rotated? then w1.(undelivered := w.undelivered + 1)
    else w1
  }

  function DoArrive(w: World, t: Token, mood: Mood): World {
    if t !in w.adrift then w else
    var issuer := Present(w.issuer, Some(t), mood).0;
    w.(issuer := issuer, adrift := w.adrift - {t},
       undelivered := w.undelivered + if issuer.honoured > w.issuer.honoured then 1 else 0)
  }

  function Do(w: World, op: Op): World {
    match op
    case Call(p, now) => DoCall(w, p, now)
    case Logout(p) => DoLogout(w, p)
    case Acquire(p) => DoAcquire(w, p)
    case Decide(p, now) => DoDecide(w, p, now)
    case Serve(p, mood) => DoServe(w, p, mood)
    case Save(p, fit) => DoSave(w, p, fit)
    case RevokeStep(p, reached) => DoRevoke(w, p, reached)
    case Forget(p, deleted) => DoForget(w, p, deleted)
    case Approve(p, family, mood) => DoApprove(w, p, family, mood)
    case SaveLogin(p, fit) => DoSaveLogin(w, p, fit)
    case Abandon(p) => DoAbandon(w, p)
    case Arrive(t, mood) => DoArrive(w, t, mood)
  }

  function Run(w: World, ops: seq<Op>): World {
    if ops == [] then w else Do(Run(w, ops[..|ops| - 1]), ops[|ops| - 1])
  }

  /** Nothing under way, and the keyring holds the newest token of a family, or nothing. */
  predicate AtRest(w: World) {
    && w.phases == map[] && w.holder.None? && w.adrift == {}
    && w.undelivered == w.abandoned == w.issuer.replays == w.issuer.honoured == 0
    && (w.keyring.Some? && w.keyring.value.token.Some? ==>
          Known(w.issuer, w.keyring.value.token.value) && !Spent(w.issuer, w.keyring.value.token.value))
  }

  // ---------------------------------------------------------------- the invariant

  /** Exactly the holder is inside a locked section. */
  ghost predicate LockKept(w: World) {
    && (forall p: nat :: Locked(PhaseOf(w, p)) ==> w.holder == Some(p))
    && (w.holder.Some? ==> Locked(PhaseOf(w, w.holder.value)))
  }

  function Holder(w: World): Phase {
    if w.holder.Some? then PhaseOf(w, w.holder.value) else Idle
  }

  predicate Current(s: Issuer, t: Option<Token>) {
    t.Some? ==> Known(s, t.value) && !Spent(s, t.value)
  }

  function KeyToken(w: World): Option<Token> {
    if w.keyring.Some? then w.keyring.value.token else None
  }

  /** The tokens the lock's holder has in hand are current, and it is replacing whatever the keyring holds spent. */
  predicate HolderKept(w: World) {
    var h := Holder(w);
    && (h.Posting? ==> Current(w.issuer, h.token))
    && (h.Rotated? ==> Current(w.issuer, h.got.token) && h.got.token.Some? && h.got.token.value.family == h.used.family)
    && (KeyToken(w).Some? ==> Known(w.issuer, KeyToken(w).value))
    && (KeyToken(w).Some? && Spent(w.issuer, KeyToken(w).value) ==> h.Rotated? && KeyToken(w).value == h.used)
  }

  predicate Elsewhere(t: Option<Token>, family: nat) {
    t.Some? ==> t.value.family != family
  }

  /** A login not yet saved has a family nobody else has seen. */
  predicate LoginKept(w: World, p: nat) {
    PhaseOf(w, p).LoggedIn? && PhaseOf(w, p).got.token.Some? ==>
      var t := PhaseOf(w, p).got.token.value;
      var h := Holder(w);
      && Current(w.issuer, Some(t))
      && Elsewhere(KeyToken(w), t.family)
      && (h.Posting? ==> Elsewhere(h.token, t.family))
      && (h.Rotated? ==> h.used.family != t.family)
  }

  predicate Apart(w: World, p: nat, q: nat) {
    p != q && PhaseOf(w, p).LoggedIn? && PhaseOf(w, q).LoggedIn? && PhaseOf(w, p).got.token.Some? ==>
      Elsewhere(PhaseOf(w, q).got.token, PhaseOf(w, p).got.token.value.family)
  }

  ghost predicate Clean(w: World) {
    && w.adrift == {} && w.issuer.replays == 0
    && HolderKept(w)
    && (forall p: nat :: LoginKept(w, p))
    && (forall p: nat, q: nat :: Apart(w, p, q))
  }

  ghost predicate Inv(w: World) {
    && LockKept(w)
    && (w.undelivered == 0 && w.abandoned == 0 ==> Clean(w))
  }

  lemma LockStays(w: World, op: Op)
    requires LockKept(w)
    ensures LockKept(Do(w, op))
  {}

  /** A step that brings no login and no token that was not there: what it may do to either. */
  ghost predicate Quiet(w: World, after: World) {
    && (forall q: nat :: PhaseOf(after, q).LoggedIn? ==> PhaseOf(after, q) == PhaseOf(w, q))
    && (forall t: Token :: Current(w.issuer, Some(t)) ==> Current(after.issuer, Some(t)))
    && QuietKeyring(w, after) && QuietHolder(w, after)
  }

  predicate QuietKeyring(w: World, after: World) {
    KeyToken(after).None? || KeyToken(after) == KeyToken(w) || (Holder(w).Rotated? && KeyToken(after) == Holder(w).got.token)
  }

  predicate QuietHolder(w: World, after: World) {
    var g, h := Holder(w), Holder(after);
    && (h.Posting? ==> h == g || h.token == KeyToken(w))
    && (h.Rotated? ==> h == g)
  }

  lemma QuietLogins(w: World, after: World)
    requires Clean(w) && Quiet(w, after)
    ensures forall q: nat :: LoginKept(after, q)
    ensures forall p: nat, q: nat :: Apart(after, p, q)
  {
    forall q: nat ensures LoginKept(after, q) { assert LoginKept(w, q); }
    forall p: nat, q: nat ensures Apart(after, p, q) { assert Apart(w, p, q); }
  }

  /** Calls, locks, looks, saved refreshes, revocations, deletes and crashes are quiet while nothing was lost. */
  lemma QuietStep(w: World, op: Op)
    requires Inv(w) && !op.Serve? && !op.SaveLogin? && !op.Approve?
    requires Do(w, op).undelivered == 0 && Do(w, op).abandoned == 0
    ensures Clean(w) && Quiet(w, Do(w, op))
  {
    QuietIssuer(w, op);
    KeyringIsQuiet(w, op);
    HolderIsQuiet(w, op);
  }

  lemma QuietIssuer(w: World, op: Op)
    requires w.adrift == {} && !op.Serve? && !op.SaveLogin? && !op.Approve?
    ensures forall q: nat :: PhaseOf(Do(w, op), q).LoggedIn? ==> PhaseOf(Do(w, op), q) == PhaseOf(w, q)
    ensures forall t: Token :: Current(w.issuer, Some(t)) ==> Current(Do(w, op).issuer, Some(t))
  {}

  lemma KeyringIsQuiet(w: World, op: Op)
    requires LockKept(w) && !op.Serve? && !op.SaveLogin? && !op.Approve?
    ensures QuietKeyring(w, Do(w, op))
  {}

  lemma HolderIsQuiet(w: World, op: Op)
    requires LockKept(w) && !op.Serve? && !op.SaveLogin? && !op.Approve?
    ensures QuietHolder(w, Do(w, op))
  {
    LockStays(w, op);
  }

  lemma QuietHand(w: World, op: Op)
    requires LockKept(w) && Clean(w) && !op.Serve? && !op.SaveLogin? && !op.Approve?
    ensures var after := Do(w, op); var h := Holder(after);
      && (h.Posting? ==> Current(after.issuer, h.token))
      && (h.Rotated? ==> Current(after.issuer, h.got.token) && h.got.token.Some? && h.got.token.value.family == h.used.family)
  {
    LockStays(w, op);
  }

  lemma SavedKey(w: World, p: nat, fit: Fit)
    requires LockKept(w) && HolderKept(w) && DoSave(w, p, fit).undelivered == 0
    ensures var after := DoSave(w, p, fit); var t := KeyToken(after); var h := Holder(after);
      t.Some? ==> Known(after.issuer, t.value) && (Spent(after.issuer, t.value) ==> h.Rotated? && t.value == h.used)
  {}

  /** Only a save, or a loss, takes a rotation out of its holder's hand. */
  lemma RotatedStays(w: World, op: Op)
    requires LockKept(w) && Holder(w).Rotated? && !op.Save? && Do(w, op).undelivered == 0
    ensures Holder(Do(w, op)) == Holder(w)
  {}

  lemma KeyStays(w: World, op: Op)
    requires w.adrift == {} && !op.Save? && !op.Serve? && !op.SaveLogin? && !op.Approve?
    ensures var after := Do(w, op); var t := KeyToken(after);
      t.Some? ==>
        && t == KeyToken(w)
        && (Known(after.issuer, t.value) <==> Known(w.issuer, t.value))
        && (Spent(after.issuer, t.value) <==> Spent(w.issuer, t.value))
  {}

  lemma QuietKey(w: World, op: Op)
    requires LockKept(w) && Clean(w) && !op.Serve? && !op.SaveLogin? && !op.Approve?
    requires Do(w, op).undelivered == 0
    ensures var after := Do(w, op); var t := KeyToken(after); var h := Holder(after);
      t.Some? ==> Known(after.issuer, t.value) && (Spent(after.issuer, t.value) ==> h.Rotated? && t.value == h.used)
  {
    if op.Save? {
      SavedKey(w, op.p, op.fit);
    } else {
      KeyStays(w, op);
      if Holder(w).Rotated? { RotatedStays(w, op); }
    }
  }

  lemma QuietTokens(w: World, op: Op)
    requires Inv(w) && !op.Serve? && !op.SaveLogin? && !op.Approve?
    requires Do(w, op).undelivered == 0 && Do(w, op).abandoned == 0
    ensures HolderKept(Do(w, op)) && Do(w, op).adrift == {} && Do(w, op).issuer.replays == 0
  {
    QuietStep(w, op);
    QuietHand(w, op);
    QuietKey(w, op);
  }

  lemma QuietKeeps(w: World, op: Op)
    requires Inv(w) && !op.Serve? && !op.SaveLogin? && !op.Approve?
    ensures Inv(Do(w, op))
  {
    LockStays(w, op);
    if Do(w, op).undelivered == 0 && Do(w, op).abandoned == 0 {
      QuietStep(w, op);
      QuietTokens(w, op);
      QuietLogins(w, Do(w, op));
    }
  }

  /** Presenting a token leaves every other family as it was, and a current one is no replay. */
  lemma PresentSpares(s: Issuer, token: Option<Token>, mood: Mood, other: Token)
    requires Elsewhere(token, other.family)
    ensures var s' := Present(s, token, mood).0;
      (Known(s', other) <==> Known(s, other)) && (Spent(s', other) <==> Spent(s, other))
  {}

  lemma PresentCurrent(s: Issuer, token: Option<Token>, mood: Mood)
    requires Current(s, token)
    ensures var (s', reply) := Present(s, token, mood);
      && s'.replays == s.replays
      && (reply.Tokens? ==> token.Some? && Current(s', reply.got.token))
      && (reply.Tokens? && reply.got.token.Some? ==> reply.got.token.value.family == token.value.family)
      && (token.Some? ==> Known(s', token.value))
      && (token.Some? && Spent(s', token.value) ==> s'.honoured == s.honoured + 1)
  {}

  lemma ServeHolder(w: World, p: nat, mood: Mood)
    requires Inv(w) && w.undelivered == 0 && w.abandoned == 0 && PhaseOf(w, p).Posting?
    requires DoServe(w, p, mood).undelivered == 0
    ensures HolderKept(DoServe(w, p, mood)) && DoServe(w, p, mood).issuer.replays == 0
  {
    var t := PhaseOf(w, p).token;
    assert Locked(PhaseOf(w, p)) && w.holder == Some(p);
    PresentCurrent(w.issuer, t, mood);
    if KeyToken(w).Some? && Elsewhere(t, KeyToken(w).value.family) {
      PresentSpares(w.issuer, t, mood, KeyToken(w).value);
    }
  }

  lemma ServeLogins(w: World, p: nat, mood: Mood, q: nat)
    requires Inv(w) && w.undelivered == 0 && w.abandoned == 0 && PhaseOf(w, p).Posting?
    ensures LoginKept(DoServe(w, p, mood), q)
  {
    assert Locked(PhaseOf(w, p)) && w.holder == Some(p);
    assert LoginKept(w, q);
    if PhaseOf(w, q).LoggedIn? && PhaseOf(w, q).got.token.Some? {
      PresentSpares(w.issuer, PhaseOf(w, p).token, mood, PhaseOf(w, q).got.token.value);
    }
  }

  lemma ServeApart(w: World, p: nat, mood: Mood, a: nat, q: nat)
    requires Apart(w, a, q) && PhaseOf(w, p).Posting?
    ensures Apart(DoServe(w, p, mood), a, q)
  {}

  lemma ServeKeeps(w: World, p: nat, mood: Mood)
    requires Inv(w)
    ensures Inv(DoServe(w, p, mood))
  {
    LockStays(w, Serve(p, mood));
    var after := DoServe(w, p, mood);
    if after.undelivered == 0 && after.abandoned == 0 && PhaseOf(w, p).Posting? {
      ServeHolder(w, p, mood);
      forall q: nat ensures LoginKept(after, q) { ServeLogins(w, p, mood, q); }
      forall a: nat, q: nat ensures Apart(after, a, q) { assert Apart(w, a, q); ServeApart(w, p, mood, a, q); }
    }
  }

  lemma ApproveLogin(w: World, p: nat, family: nat, mood: Mood, q: nat)
    requires LockKept(w) && HolderKept(w) && LoginKept(w, q)
    ensures LoginKept(DoApprove(w, p, family, mood), q)
  {}

  lemma ApproveApart(w: World, p: nat, family: nat, mood: Mood, a: nat, q: nat)
    requires Apart(w, a, q) && LoginKept(w, a) && LoginKept(w, q)
    ensures Apart(DoApprove(w, p, family, mood), a, q)
  {}

  lemma ApproveHolder(w: World, p: nat, family: nat, mood: Mood)
    requires LockKept(w) && HolderKept(w)
    ensures HolderKept(DoApprove(w, p, family, mood))
  {}

  lemma ApproveKeeps(w: World, p: nat, family: nat, mood: Mood)
    requires Inv(w)
    ensures Inv(DoApprove(w, p, family, mood))
  {
    LockStays(w, Approve(p, family, mood));
    var after := DoApprove(w, p, family, mood);
    if after.undelivered == 0 && after.abandoned == 0 {
      ApproveHolder(w, p, family, mood);
      forall q: nat ensures LoginKept(after, q) {
        assert LoginKept(w, q);
        ApproveLogin(w, p, family, mood, q);
      }
      forall a: nat, q: nat ensures Apart(after, a, q) {
        assert Apart(w, a, q) && LoginKept(w, a) && LoginKept(w, q);
        ApproveApart(w, p, family, mood, a, q);
      }
    }
  }

  lemma SaveLoginKeeps(w: World, p: nat, fit: Fit)
    requires Inv(w)
    ensures Inv(DoSaveLogin(w, p, fit))
  {
    LockStays(w, SaveLogin(p, fit));
    var after := DoSaveLogin(w, p, fit);
    if after.undelivered == 0 && after.abandoned == 0 {
      assert LoginKept(w, p);
      forall q: nat ensures LoginKept(after, q) {
        assert LoginKept(w, q);
        assert LoginKept(w, p) && Apart(w, q, p);
      }
      forall a: nat, q: nat ensures Apart(after, a, q) {
        assert Apart(w, a, q) && LoginKept(w, a) && LoginKept(w, q);
      }
    }
  }

  lemma DoKeeps(w: World, op: Op)
    requires Inv(w)
    ensures Inv(Do(w, op))
  {
    match op
    case Serve(p, mood) => ServeKeeps(w, p, mood);
    case Approve(p, family, mood) => ApproveKeeps(w, p, family, mood);
    case SaveLogin(p, fit) => SaveLoginKeeps(w, p, fit);
    case _ => QuietKeeps(w, op);
  }

  lemma {:induction false} RunKeeps(w: World, ops: seq<Op>)
    requires Inv(w)
    ensures Inv(Run(w, ops))
  {
    if ops != [] {
      RunKeeps(w, ops[..|ops| - 1]);
      DoKeeps(Run(w, ops[..|ops| - 1]), ops[|ops| - 1]);
    }
  }

  /**
    No process ever presents a spent refresh token, whatever the interleaving of calls, logins and
    sign-outs, as long as every honoured refresh was stored and no request outlived its sender.
  */
  lemma NeverReplayed(w: World, ops: seq<Op>)
    requires AtRest(w)
    ensures Run(w, ops).issuer.replays > 0 ==> Run(w, ops).undelivered > 0 || Run(w, ops).abandoned > 0
  {
    RunKeeps(w, ops);
  }

  /** A saved session due for a refresh the issuer would honour. */
  predicate Due(w: World, now: int) {
    && w.keyring.Some? && !Fresh(w.keyring.value, now) && w.keyring.value.ends > now
    && w.keyring.value.token.Some? && w.keyring.value.token.value.family in w.issuer.families
    && w.issuer.families[w.keyring.value.token.value.family].live
  }

  lemma RunSteps(w: World, ops: seq<Op>, op: Op)
    ensures Run(w, ops + [op]) == Do(Run(w, ops), op)
  {
    assert (ops + [op])[..|ops|] == ops;
  }

  /** One command's refresh up to the request. */
  function Start(p: nat, now: int): seq<Op> {
    [Call(p, now)] + [Acquire(p)] + [Decide(p, now)]
  }

  lemma StartPosts(w: World, ops: seq<Op>, p: nat, now: int)
    requires var x := Run(w, ops); PhaseOf(x, p).Idle? && x.holder.None? && x.keyring.Some? && !Fresh(x.keyring.value, now) && x.keyring.value.ends > now
    ensures var x := Run(w, ops);
      Run(w, ops + Start(p, now)) == x.(holder := Some(p), phases := x.phases[p := Posting(x.keyring.value.token)])
  {
    RunSteps(w, ops, Call(p, now));
    RunSteps(w, ops + [Call(p, now)], Acquire(p));
    RunSteps(w, ops + [Call(p, now)] + [Acquire(p)], Decide(p, now));
    assert ops + Start(p, now) == ops + [Call(p, now)] + [Acquire(p)] + [Decide(p, now)];
    var x := Run(w, ops);
    assert x.phases[p := Waiting(Refreshing)][p := Holding(Refreshing)][p := Posting(x.keyring.value.token)]
        == x.phases[p := Posting(x.keyring.value.token)];
  }

  /** The first exception is real: one lost answer, and the next refresh is a replay that ends the login. */
  lemma LostAnswerReplays(w: World, now: int) returns (ops: seq<Op>)
    requires AtRest(w) && Due(w, now)
    ensures Run(w, ops).issuer.replays == 1 && Run(w, ops).abandoned == 0
  {
    assert Run(w, []) == w;
    StartPosts(w, [], 0, now);
    assert [] + Start(0, now) == Start(0, now);
    var lost := Start(0, now) + [Serve(0, Lost)];
    RunSteps(w, Start(0, now), Serve(0, Lost));
    StartPosts(w, lost, 0, now);
    ops := lost + Start(0, now) + [Serve(0, Lost)];
    RunSteps(w, lost + Start(0, now), Serve(0, Lost));
  }

  lemma KilledInFlight(w: World, now: int) returns (ops: seq<Op>)
    requires AtRest(w) && Due(w, now)
    ensures Run(w, ops) == w.(phases := map[0 := Idle], abandoned := 1, adrift := {w.keyring.value.token.value})
  {
    assert Run(w, []) == w;
    StartPosts(w, [], 0, now);
    assert [] + Start(0, now) == Start(0, now);
    ops := Start(0, now) + [Abandon(0)];
    RunSteps(w, Start(0, now), Abandon(0));
    assert map[0 := Posting(w.keyring.value.token)][0 := Idle] == map[0 := Idle];
  }

  lemma OneRotation(s: Issuer, t: Token, answer: Mood)
    requires Known(s, t) && !Spent(s, t) && s.families[t.family].live
    requires answer.Answered? && answer.hasAccess && answer.carries
    ensures var (issuer, reply) := Present(s, Some(t), answer);
      && issuer.honoured == s.honoured + 1 && issuer.replays == s.replays
      && reply.Tokens? && reply.got.token.Some? && Spent(issuer, t)
  {}

  lemma ServedAndSaved(x: World, t: Token, answer: Mood)
    requires PhaseOf(x, 1) == Posting(Some(t)) && Known(x.issuer, t) && !Spent(x.issuer, t) && x.issuer.families[t.family].live
    requires answer.Answered? && answer.hasAccess && answer.carries
    ensures var z := DoSave(DoServe(x, 1, answer), 1, Whole);
      z.adrift == x.adrift && z.undelivered == x.undelivered && z.issuer.replays == x.issuer.replays && Spent(z.issuer, t)
  {
    OneRotation(x.issuer, t, answer);
    assert PhaseOf(DoServe(x, 1, answer), 1).Rotated?;
  }

  lemma LateReplays(w: World, t: Token)
    requires t in w.adrift && Spent(w.issuer, t)
    ensures var after := DoArrive(w, t, Lost);
      after.issuer.replays == w.issuer.replays + 1 && after.undelivered == w.undelivered
  {}

  /**
    So is the second, with every honoured answer stored: a command killed while its request is on
    the way frees the lock, the next one refreshes with the same token, and the late request is the replay.
  */
  lemma AbandonedRequestReplays(w: World, now: int, answer: Mood) returns (ops: seq<Op>)
    requires AtRest(w) && Due(w, now) && answer.Answered? && answer.hasAccess && answer.carries
    ensures Run(w, ops).issuer.replays == 1 && Run(w, ops).undelivered == 0
  {
    var t := w.keyring.value.token.value;
    var killed := KilledInFlight(w, now);
    StartPosts(w, killed, 1, now);
    var posted := killed + Start(1, now);
    var x := Run(w, posted);
    assert x.adrift == {t} && x.issuer == w.issuer && x.undelivered == 0 && PhaseOf(x, 1) == Posting(Some(t));
    ServedAndSaved(x, t, answer);
    RunSteps(w, posted, Serve(1, answer));
    var served := posted + [Serve(1, answer)];
    RunSteps(w, served, Save(1, Whole));
    var saved := served + [Save(1, Whole)];
    LateReplays(Run(w, saved), t);
    RunSteps(w, saved, Arrive(t, Lost));
    ops := saved + [Arrive(t, Lost)];
  }

  // ---------------------------------------------------------------- one refresh for a burst

  /** A session the step issues or stores keeps its access token, fresh for every look at the keyring in the run. */
  predicate FreshAtAll(op: Op, nows: set<int>) {
    var mood := match op case Serve(_, m) => m case Approve(_, _, m) => m case _ => Unreached;
    && (mood.Answered? ==> forall now | now in nows :: mood.expires - MARGIN > now)
    && (op.Save? || op.SaveLogin? ==> !op.fit.Trimmed?)
  }

  predicate LooksWithin(op: Op, nows: set<int>) {
    op.Decide? ==> op.now in nows
  }

  predicate AllFresh(s: Saved, nows: set<int>) {
    forall now | now in nows :: Fresh(s, now)
  }

  predicate InHand(phase: Phase, t0: Option<Token>, nows: set<int>) {
    && (phase.Posting? ==> phase.token == t0)
    && (phase.Rotated? || phase.LoggedIn? ==> AllFresh(phase.got, nows))
  }

  /** Only the token that was stale at the start is ever posted, and it is spent once honoured. */
  ghost predicate OneStale(w: World, start: Option<Saved>, nows: set<int>) {
    var t0 := if start.Some? then start.value.token else None;
    Hands(w, start, t0, nows) && Ledger(w, t0)
  }

  ghost predicate Hands(w: World, start: Option<Saved>, t0: Option<Token>, nows: set<int>) {
    && (start.Some? ==> start.value.token == t0)
    && (w.keyring.Some? ==> w.keyring == start || AllFresh(w.keyring.value, nows))
    && (forall p: nat :: InHand(PhaseOf(w, p), t0, nows))
  }

  predicate Ledger(w: World, t0: Option<Token>) {
    && (forall t :: t in w.adrift ==> Some(t) == t0)
    && w.issuer.honoured <= 1
    && (w.issuer.honoured == 1 ==> t0.Some? && Spent(w.issuer, t0.value))
    && (t0.Some? ==> Known(w.issuer, t0.value))
  }

  lemma KeyringStays(w: World, op: Op, start: Option<Saved>, t0: Option<Token>, nows: set<int>)
    requires w.keyring.Some? ==> w.keyring == start || AllFresh(w.keyring.value, nows)
    requires FreshAtAll(op, nows) && (op.Save? || op.SaveLogin? ==> InHand(PhaseOf(w, op.p), t0, nows))
    ensures var after := Do(w, op); after.keyring.Some? ==> after.keyring == start || AllFresh(after.keyring.value, nows)
  {}

  lemma HandStays(w: World, op: Op, start: Option<Saved>, t0: Option<Token>, nows: set<int>, q: nat)
    requires (start.Some? ==> start.value.token == t0) && (w.keyring.Some? ==> w.keyring == start || AllFresh(w.keyring.value, nows))
    requires InHand(PhaseOf(w, q), t0, nows) && FreshAtAll(op, nows) && LooksWithin(op, nows)
    ensures InHand(PhaseOf(Do(w, op), q), t0, nows)
  {}

  lemma HandsStay(w: World, op: Op, start: Option<Saved>, t0: Option<Token>, nows: set<int>)
    requires Hands(w, start, t0, nows) && FreshAtAll(op, nows) && LooksWithin(op, nows)
    ensures Hands(Do(w, op), start, t0, nows)
  {
    if op.Save? || op.SaveLogin? { assert InHand(PhaseOf(w, op.p), t0, nows); }
    KeyringStays(w, op, start, t0, nows);
    forall q: nat ensures InHand(PhaseOf(Do(w, op), q), t0, nows) {
      assert InHand(PhaseOf(w, q), t0, nows);
      HandStays(w, op, start, t0, nows, q);
    }
  }

  /** The stale token is honoured only while it is current, and by being honoured it stops being so. */
  lemma PresentOnce(s: Issuer, t0: Option<Token>, mood: Mood)
    requires t0.Some? ==> Known(s, t0.value)
    requires s.honoured <= 1 && (s.honoured == 1 ==> t0.Some? && Spent(s, t0.value))
    ensures var s' := Present(s, t0, mood).0;
      && (t0.Some? ==> Known(s', t0.value))
      && s'.honoured <= 1 && (s'.honoured == 1 ==> t0.Some? && Spent(s', t0.value))
  {}

  lemma LedgerQuiet(w: World, op: Op, t0: Option<Token>, nows: set<int>)
    requires Ledger(w, t0) && !op.Serve? && !op.Arrive? && InHand(PhaseOf(w, op.p), t0, nows)
    ensures Ledger(Do(w, op), t0)
  {}

  lemma LedgerStays(w: World, op: Op, t0: Option<Token>, nows: set<int>)
    requires Ledger(w, t0) && (op.Arrive? || InHand(PhaseOf(w, op.p), t0, nows))
    ensures Ledger(Do(w, op), t0)
  {
    match op
    case Serve(_, mood) => PresentOnce(w.issuer, t0, mood);
    case Arrive(_, mood) => PresentOnce(w.issuer, t0, mood);
    case _ => LedgerQuiet(w, op, t0, nows);
  }

  lemma OneStaleStays(w: World, op: Op, start: Option<Saved>, nows: set<int>)
    requires OneStale(w, start, nows) && FreshAtAll(op, nows) && LooksWithin(op, nows)
    ensures OneStale(Do(w, op), start, nows)
  {
    var t0 := if start.Some? then start.value.token else None;
    HandsStay(w, op, start, t0, nows);
    LedgerStays(w, op, t0, nows);
  }

  lemma {:induction false} OneStaleRuns(w: World, ops: seq<Op>, nows: set<int>)
    requires AtRest(w)
    requires forall i :: 0 <= i < |ops| ==> FreshAtAll(ops[i], nows) && LooksWithin(ops[i], nows)
    ensures OneStale(Run(w, ops), w.keyring, nows)
  {
    if ops != [] {
      OneStaleRuns(w, ops[..|ops| - 1], nows);
      OneStaleStays(Run(w, ops[..|ops| - 1]), ops[|ops| - 1], w.keyring, nows);
    }
  }

  /**
    However many commands find the session stale at once, and whatever crashes, the issuer honours
    at most one refresh while the sessions it issues stay clear of their expiry.
  */
  lemma BurstRefreshesOnce(w: World, ops: seq<Op>, nows: set<int>)
    requires AtRest(w)
    requires forall i :: 0 <= i < |ops| ==> FreshAtAll(ops[i], nows) && LooksWithin(ops[i], nows)
    ensures Run(w, ops).issuer.honoured <= 1
  {
    OneStaleRuns(w, ops, nows);
  }
}
