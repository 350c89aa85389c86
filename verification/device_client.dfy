/**
  One command's device login, method by method: the refresh under the file lock, the sign-out, and
  the wait for a browser approval. The first two are shown to be runs of the protocol's steps.
*/
module DeviceClient {
  import opened Options
  import opened DeviceProtocol

  datatype Outcome = Signed(session: Saved) | NotSignedIn | Ended | Rejected | Failed | NotStored

  /** The keyring after a delete, which may fail unheard. */
  function Forgotten(entry: Option<Saved>, deleted: bool): Option<Saved> {
    if deleted then None else entry
  }

  /** What a refresh under the lock leaves in the keyring and at the issuer, and what the caller is told. */
  function Refreshed(entry: Option<Saved>, issuer: Issuer, now: int, mood: Mood, fit: Fit, deleted: bool): (Option<Saved>, Issuer, Outcome) {
    if entry.None? then (entry, issuer, NotSignedIn)
    else if Fresh(entry.value, now) then (entry, issuer, Signed(entry.value))
    else if entry.value.ends <= now then (Forgotten(entry, deleted), issuer, Ended)
    else
      var (issuer1, reply) := Present(issuer, entry.value.token, mood);
      match reply
      case Trouble => (entry, issuer1, Failed)
      case InvalidGrant => (Forgotten(entry, deleted), issuer1, Rejected)
      case Tokens(got) =>
        if fit.TooLarge? then (entry, issuer1, NotStored) else (Some(Stored(got, fit)), issuer1, Signed(got))
  }

  /** `access_token`: the first look is outside the lock, the second inside it. */
  function Accessed(entry: Option<Saved>, issuer: Issuer, first: int, second: int, mood: Mood, fit: Fit, deleted: bool)
    : (Option<Saved>, Issuer, Outcome)
  {
    if entry.None? then (entry, issuer, NotSignedIn)
    else if Fresh(entry.value, first) then (entry, issuer, Signed(entry.value))
    else Refreshed(entry, issuer, second, mood, fit, deleted)
  }

  function Access(p: nat, first: int, second: int, mood: Mood, fit: Fit, deleted: bool): seq<Op> {
    [Call(p, first)] + [Acquire(p)] + [Decide(p, second)] + [Serve(p, mood)] + [Save(p, fit)] + [Forget(p, deleted)]
  }

  /** The state in which a looked-up session leaves the caller. */
  function Looked(entry: Option<Saved>, first: int, second: int): Phase {
    if entry.None? || Fresh(entry.value, first) || Fresh(entry.value, second) then Idle
    else if entry.value.ends <= second then Forgetting
    else Posting(entry.value.token)
  }

  lemma LookSettles(w: World, p: nat, first: int, second: int)
    requires PhaseOf(w, p).Idle? && w.holder.None?
    ensures var x := DoDecide(DoAcquire(DoCall(w, p, first), p), p, second);
      && x.keyring == w.keyring && x.issuer == w.issuer
      && PhaseOf(x, p) == Looked(w.keyring, first, second)
      && x.holder == (if PhaseOf(x, p).Idle? then None else Some(p))
  {}

  lemma LookIsRun(w: World, p: nat, first: int, second: int)
    requires PhaseOf(w, p).Idle? && w.holder.None?
    ensures var x := Run(w, [Call(p, first)] + [Acquire(p)] + [Decide(p, second)]);
      && x.keyring == w.keyring && x.issuer == w.issuer
      && PhaseOf(x, p) == Looked(w.keyring, first, second)
      && x.holder == (if PhaseOf(x, p).Idle? then None else Some(p))
  {
    assert Run(w, []) == w;
    RunSteps(w, [], Call(p, first));
    assert [] + [Call(p, first)] == [Call(p, first)];
    RunSteps(w, [Call(p, first)], Acquire(p));
    RunSteps(w, [Call(p, first)] + [Acquire(p)], Decide(p, second));
    LookSettles(w, p, first, second);
  }

  function Settle(w: World, p: nat, mood: Mood, fit: Fit, deleted: bool): World {
    DoForget(DoSave(DoServe(w, p, mood), p, fit), p, deleted)
  }

  lemma AnswerSettles(x: World, p: nat, mood: Mood, fit: Fit, deleted: bool)
    requires PhaseOf(x, p).Posting? && x.keyring.Some? && PhaseOf(x, p).token == x.keyring.value.token
    ensures var after := Settle(x, p, mood, fit, deleted);
      var (issuer, reply) := Present(x.issuer, x.keyring.value.token, mood);
      && PhaseOf(after, p).Idle? && after.holder.None?
      && after.issuer == issuer
      && after.keyring == match reply
           case Trouble => x.keyring
           case InvalidGrant => Forgotten(x.keyring, deleted)
           case Tokens(got) => if fit.TooLarge? then x.keyring else Some(Stored(got, fit))
  {}

  /** Undisturbed, a call of the method is that call's steps in the protocol, and lets go of the lock. */
  lemma AccessIsRun(w: World, p: nat, first: int, second: int, mood: Mood, fit: Fit, deleted: bool)
    requires PhaseOf(w, p).Idle? && w.holder.None?
    ensures var after := Run(w, Access(p, first, second, mood, fit, deleted));
      && PhaseOf(after, p).Idle? && after.holder.None?
      && (after.keyring, after.issuer)
         == (Accessed(w.keyring, w.issuer, first, second, mood, fit, deleted).0, Accessed(w.keyring, w.issuer, first, second, mood, fit, deleted).1)
  {
    var ops := [Call(p, first)] + [Acquire(p)] + [Decide(p, second)];
    var x := Run(w, ops);
    LookIsRun(w, p, first, second);
    RunSteps(w, ops, Serve(p, mood));
    RunSteps(w, ops + [Serve(p, mood)], Save(p, fit));
    RunSteps(w, ops + [Serve(p, mood)] + [Save(p, fit)], Forget(p, deleted));
    assert Run(w, Access(p, first, second, mood, fit, deleted)) == Settle(x, p, mood, fit, deleted);
    if PhaseOf(x, p).Posting? { AnswerSettles(x, p, mood, fit, deleted); }
  }

  function LeaveOps(p: nat, now: int, reached: bool, deleted: bool): seq<Op> {
    [Logout(p)] + [Acquire(p)] + [Decide(p, now)] + [RevokeStep(p, reached)] + [Forget(p, deleted)]
  }

  lemma LeaveSettles(w: World, p: nat, now: int)
    requires PhaseOf(w, p).Idle? && w.holder.None?
    ensures var x := DoDecide(DoAcquire(DoLogout(w, p), p), p, now);
      && x.keyring == w.keyring && x.issuer == w.issuer
      && PhaseOf(x, p) == (if w.keyring.None? then Idle else Revoking(w.keyring.value.token))
      && x.holder == (if w.keyring.None? then None else Some(p))
  {}

  lemma LeaveStarts(w: World, p: nat, now: int)
    requires PhaseOf(w, p).Idle? && w.holder.None?
    ensures var x := Run(w, [Logout(p)] + [Acquire(p)] + [Decide(p, now)]);
      && x.keyring == w.keyring && x.issuer == w.issuer
      && PhaseOf(x, p) == (if w.keyring.None? then Idle else Revoking(w.keyring.value.token))
      && x.holder == (if w.keyring.None? then None else Some(p))
  {
    assert Run(w, []) == w;
    RunSteps(w, [], Logout(p));
    assert [] + [Logout(p)] == [Logout(p)];
    RunSteps(w, [Logout(p)], Acquire(p));
    RunSteps(w, [Logout(p)] + [Acquire(p)], Decide(p, now));
    LeaveSettles(w, p, now);
  }

  /**
    A sign-out is a run of the protocol's steps that lets go of the lock. Whatever the issuer says, the
    keyring is empty afterwards exactly when it was before or lets the session be deleted.
  */
  lemma LogoutIsRun(w: World, p: nat, now: int, reached: bool, deleted: bool)
    requires PhaseOf(w, p).Idle? && w.holder.None?
    ensures var after := Run(w, LeaveOps(p, now, reached, deleted));
      && PhaseOf(after, p).Idle? && after.holder.None? && after.keyring == Forgotten(w.keyring, deleted)
      && (after.keyring.None? <==> w.keyring.None? || deleted)
      && after.issuer == (if w.keyring.Some? && reached then Revoke(w.issuer, w.keyring.value.token) else w.issuer)
  {
    var ops := [Logout(p)] + [Acquire(p)] + [Decide(p, now)];
    LeaveStarts(w, p, now);
    RunSteps(w, ops, RevokeStep(p, reached));
    RunSteps(w, ops + [RevokeStep(p, reached)], Forget(p, deleted));
  }

  /** After a confirmed sign-out the ended token earns nothing but a refusal, spent or not. */
  lemma RevokedHonoursNothing(s: Issuer, token: Option<Token>, mood: Mood)
    requires token.Some? && Known(s, token.value)
    ensures var (after, reply) := Present(Revoke(s, token), token, mood);
      after.honoured == s.honoured && !reply.Tokens?
  {}

  // ---------------------------------------------------------------- what a call promises

  /** The session's access token is there, and good for more than a minute. */
  predicate GoodAt(s: Saved, at: int) {
    s.hasAccess && at + 60 < s.expires
  }

  /**
    What a call that looks at the session at `first` and at `second` does. A session good at either is
    answered as it is, and nothing is posted or stored. One that has ended is not refreshed. Any other has
    its token presented exactly once, and what comes of it is the answer.
  */
  predicate Judged(entry: Option<Saved>, first: int, second: int, issuer: Issuer, issuer': Issuer,
                   posts: seq<Option<Token>>, posts': seq<Option<Token>>, entry': Option<Saved>, r: Outcome) {
    if entry.None? then
      r == NotSignedIn && entry' == entry && issuer' == issuer && posts' == posts
    else if GoodAt(entry.value, first) || GoodAt(entry.value, second) then
      r == Signed(entry.value) && entry' == entry && issuer' == issuer && posts' == posts
    else if entry.value.ends <= second then
      r == Ended && (entry' == entry || entry' == None) && issuer' == issuer && posts' == posts
    else
      posts' == posts + [entry.value.token] && Refreshes(entry, issuer, issuer', entry', r)
  }

  /**
    What a presented token earns: a session newly handed out and stored, with or without its access token;
    or one that could not be stored; or a refusal, after which the old one may be gone; or trouble.
  */
  predicate Refreshes(entry: Option<Saved>, issuer: Issuer, issuer': Issuer, entry': Option<Saved>, r: Outcome) {
    match r
    case Signed(got) => got.hasAccess
      && (entry' == Some(got) || entry' == Some(got.(hasAccess := false))) && issuer'.honoured == issuer.honoured + 1
      && entry.Some? && entry.value.token.Some? && var t := entry.value.token.value;
         got.token.Some? ==> got.token.value == Token(t.family, t.generation + 1)
    case NotStored => entry' == entry && issuer'.honoured == issuer.honoured + 1
    case Rejected => (entry' == entry || entry' == None) && issuer'.honoured == issuer.honoured
    case Failed => entry' == entry
    case _ => false
  }

  // ---------------------------------------------------------------- the objects

  class IssuerServer {
    var state: Issuer
    /** Every refresh token presented by this command, in order. */
    ghost var posts: seq<Option<Token>>
    /** Every token it asked to have revoked. */
    ghost var endings: seq<Option<Token>>

    constructor (state: Issuer)
      ensures this.state == state && posts == endings == []
    {
      this.state := state;
      posts, endings := [], [];
    }

    method PostToken(token: Option<Token>) returns (reply: Reply, ghost mood: Mood)
      modifies this`state, this`posts
      ensures (state, reply) == Present(old(state), token, mood)
      ensures posts == old(posts) + [token]
    {
      posts := posts + [token];
      var m: Mood := *;
      mood := m;
      reply := Present(state, token, m).1;
      state := Present(state, token, m).0;
    }

    /** Whether the issuer confirmed it. Without a confirmation the request may or may not have arrived. */
    method PostRevoke(token: Option<Token>) returns (confirmed: bool, ghost reached: bool)
      modifies this`state, this`endings
      ensures state == if reached then Revoke(old(state), token) else old(state)
      ensures confirmed ==> reached
      ensures endings == old(endings) + [token]
    {
      endings := endings + [token];
      var arrives: bool := *;
      var answered: bool := *;
      reached := arrives;
      if arrives {
        state := Revoke(state, token);
      }
      confirmed := arrives && answered;
    }
  }

  class Keyring {
    var entry: Option<Saved>
    /** How often it was asked to delete. */
    ghost var deletes: nat

    constructor (entry: Option<Saved>)
      ensures this.entry == entry && deletes == 0
    {
      this.entry := entry;
      deletes := 0;
    }

    method SetPassword(session: Saved) returns (ok: bool, ghost fit: Fit)
      modifies this`entry
      ensures ok == !fit.TooLarge?
      ensures entry == if ok then Some(Stored(session, fit)) else old(entry)
    {
      var f: Fit := *;
      fit := f;
      ok := !f.TooLarge?;
      if ok {
        entry := Some(Stored(session, f));
      }
    }

    /** The caller is not told whether it worked. */
    method DeletePassword() returns (ghost deleted: bool)
      modifies this
      ensures entry == Forgotten(old(entry), deleted)
      ensures deletes == old(deletes) + 1
    {
      deletes := deletes + 1;
      var works: bool := *;
      deleted := works;
      if works {
        entry := None;
      }
    }
  }

  class DeviceLoginClient {
    const keyring: Keyring
    const issuer: IssuerServer

    constructor (keyring: Keyring, issuer: IssuerServer)
      ensures this.keyring == keyring && this.issuer == issuer
    {
      this.keyring := keyring;
      this.issuer := issuer;
    }

    /** `_refresh_locked`: the caller holds the file lock. */
    method RefreshLocked(now: int) returns (r: Outcome, ghost mood: Mood, ghost fit: Fit, ghost deleted: bool)
      modifies keyring, issuer
      ensures (keyring.entry, issuer.state, r) == Refreshed(old(keyring.entry), old(issuer.state), now, mood, fit, deleted)
      ensures Judged(old(keyring.entry), now, now, old(issuer.state), issuer.state, old(issuer.posts), issuer.posts, keyring.entry, r)
      ensures keyring.deletes == old(keyring.deletes) + if r.Ended? || r.Rejected? then 1 else 0
    {
      mood, fit, deleted := Unreached, Whole, true;
      var session := keyring.entry;
      if session.None? {
        return NotSignedIn, mood, fit, deleted;
      }
      if session.value.hasAccess && session.value.expires - MARGIN > now {
        return Signed(session.value), mood, fit, deleted;
      }
      if session.value.ends <= now {
        deleted := keyring.DeletePassword();
        return Ended, mood, fit, deleted;
      }
      var reply;
      reply, mood := issuer.PostToken(session.value.token);
      if reply.InvalidGrant? {
        deleted := keyring.DeletePassword();
        return Rejected, mood, fit, deleted;
      }
      if reply.Trouble? {
        return Failed, mood, fit, deleted;
      }
      var ok;
      ok, fit := keyring.SetPassword(reply.got);
      r := if ok then Signed(reply.got) else NotStored;
    }

    method AccessToken(first: int, second: int) returns (r: Outcome, ghost mood: Mood, ghost fit: Fit, ghost deleted: bool)
      modifies keyring, issuer
      ensures (keyring.entry, issuer.state, r) == Accessed(old(keyring.entry), old(issuer.state), first, second, mood, fit, deleted)
      ensures Judged(old(keyring.entry), first, second, old(issuer.state), issuer.state, old(issuer.posts), issuer.posts, keyring.entry, r)
      ensures keyring.deletes == old(keyring.deletes) + if r.Ended? || r.Rejected? then 1 else 0
    {
      mood, fit, deleted := Unreached, Whole, true;
      var session := keyring.entry;
      if session.None? {
        return NotSignedIn, mood, fit, deleted;
      }
      if session.value.hasAccess && session.value.expires - MARGIN > first {
        return Signed(session.value), mood, fit, deleted;
      }
      r, mood, fit, deleted := RefreshLocked(second);
    }

    /** `deleted` is whether the keyring let the session go, which nobody is told. */
    method SignOut() returns (had: bool, revoked: bool, ghost reached: bool, ghost deleted: bool)
      modifies keyring, issuer
      ensures had == old(keyring.entry).Some?
      ensures keyring.entry == Forgotten(old(keyring.entry), deleted)
      ensures issuer.state == if had && reached then Revoke(old(issuer.state), old(keyring.entry).value.token) else old(issuer.state)
      ensures revoked ==> had && reached
      ensures keyring.deletes == old(keyring.deletes) + if had then 1 else 0
      ensures issuer.endings == old(issuer.endings) + if had then [old(keyring.entry).value.token] else []
      ensures issuer.posts == old(issuer.posts)
    {
      had, revoked, reached, deleted := keyring.entry.Some?, false, false, true;
      if had {
        revoked, reached := issuer.PostRevoke(keyring.entry.value.token);
        deleted := keyring.DeletePassword();
      }
    }
  }

  // ---------------------------------------------------------------- waiting for approval

  datatype Answer = Approved | Pending | SlowDown | Denied | Expired | Other

  /** One poll of the issuer, and when it was sent. */
  datatype Poll = Poll(at: int, answer: Answer)

  datatype Login = SignedIn | WasDenied | TimedOut | Broken

  const SLOW_DOWN_STEP: int := 5

  /** The wait the issuer has asked for after these polls. */
  function Interval(base: int, polls: seq<Poll>): int {
    if polls == [] then base
    else Interval(base, polls[..|polls| - 1]) + if polls[|polls| - 1].answer.SlowDown? then SLOW_DOWN_STEP else 0
  }

  /** Never sooner than the asked wait after the last poll, never at or past the deadline, and only after answers that ask to go on. */
  predicate Patient(start: int, base: int, deadline: int, polls: seq<Poll>)
  {
    polls == [] ||
    var before := polls[..|polls| - 1];
    && Patient(start, base, deadline, before)
    && polls[|polls| - 1].at < deadline
    && polls[|polls| - 1].at >= (if before == [] then start else before[|before| - 1].at) + Interval(base, before)
    && (before != [] ==> before[|before| - 1].answer.Pending? || before[|before| - 1].answer.SlowDown?)
  }

  /** What the last answer settles. A device code that ran out by the clock is the same refusal. */
  function Settled(answer: Answer): Option<Login> {
    match answer
    case Approved => Some(SignedIn)
    case Denied => Some(WasDenied)
    case Expired => Some(TimedOut)
    case Other => Some(Broken)
    case _ => None
  }

  function LastAt(start: int, polls: seq<Poll>): int {
    if polls == [] then start else polls[|polls| - 1].at
  }

  lemma {:induction false} IntervalAtLeast(base: int, polls: seq<Poll>)
    ensures Interval(base, polls) >= base
  {
    if polls != [] { IntervalAtLeast(base, polls[..|polls| - 1]); }
  }

  /** So a patient client polls no more often than the deadline divided by the first wait. */
  lemma {:induction false} PollsBounded(start: int, base: int, deadline: int, polls: seq<Poll>)
    requires base >= 1 && polls != [] && Patient(start, base, deadline, polls)
    ensures start + base * |polls| <= LastAt(start, polls) < deadline
  {
    var before := polls[..|polls| - 1];
    IntervalAtLeast(base, before);
    if before != [] { PollsBounded(start, base, deadline, before); }
    assert base * |polls| == base * |before| + base;
  }

  /** The issuer being polled, and the clock. Every poll is on record. */
  class Approval {
    var now: int
    ghost var polls: seq<Poll>
    /** Every wait asked for, in order. */
    ghost var waits: seq<int>

    constructor (now: int)
      ensures this.now == now && polls == [] && waits == []
    {
      this.now := now;
      polls, waits := [], [];
    }

    /** The answer to one poll. */
    method Ask() returns (a: Answer)
      modifies this`polls
      ensures polls == old(polls) + [Poll(now, a)]
    {
      a := *;
      polls := polls + [Poll(now, a)];
    }

    /** A sleep lasts at least as long as asked for. */
    method Sleep(wait: int)
      modifies this`now, this`waits
      ensures now >= old(now) + wait
      ensures waits == old(waits) + [wait]
    {
      waits := waits + [wait];
      var later: int := *;
      now := if later < now + wait then now + wait else later;
    }
  }

  /** Each poll so far came before the deadline and was answered to wait or to slow down. */
  predicate Unsettled(polls: seq<Poll>, deadline: int) {
    forall i :: 0 <= i < |polls| ==> polls[i].at < deadline && (polls[i].answer == Pending || polls[i].answer == SlowDown)
  }

  /** How often these polls were answered with a slow-down. */
  function SlowDowns(polls: seq<Poll>): nat {
    if polls == [] then 0
    else SlowDowns(polls[..|polls| - 1]) + if polls[|polls| - 1].answer == SlowDown then 1 else 0
  }

  /** Every wait is the asked one, or one second when less was asked, and five more for each slow-down before it. */
  predicate Paced(asked: int, polls: seq<Poll>, waits: seq<int>) {
    |waits| <= |polls| + 1 && forall i :: 0 <= i < |waits| ==> waits[i] == (if asked < 1 then 1 else asked) + 5 * SlowDowns(polls[..i])
  }

  /**
    How a wait ends: with what the last poll was answered, when that is neither to wait nor to slow down, or else
    at the deadline. Any poll before the last was answered with one of those two, and each came before the deadline.
  */
  predicate EndsAs(polls: seq<Poll>, deadline: int, now: int, r: Login) {
    && (forall i :: 0 <= i < |polls| ==> polls[i].at < deadline)
    && (forall i :: 0 <= i < |polls| - 1 ==> polls[i].answer == Pending || polls[i].answer == SlowDown)
    && if polls == [] || polls[|polls| - 1].answer == Pending || polls[|polls| - 1].answer == SlowDown
       then r == TimedOut && now >= deadline
       else match polls[|polls| - 1].answer
         case Approved => r == SignedIn
         case Denied => r == WasDenied
         case Expired => r == TimedOut
         case _ => r == Broken
  }

  lemma {:induction false} IntervalIs(base: int, polls: seq<Poll>)
    ensures Interval(base, polls) == base + 5 * SlowDowns(polls)
  {
    if polls != [] { IntervalIs(base, polls[..|polls| - 1]); }
  }

  function AtLeastOne(asked: int): int {
    if asked < 1 then 1 else asked
  }

  /** The polls so far were patient and settled nothing; `interval` is the wait now due. */
  predicate Waiting(asked: int, start: int, deadline: int, polls: seq<Poll>, waits: seq<int>, interval: int, now: int) {
    && Patient(start, AtLeastOne(asked), deadline, polls) && Unsettled(polls, deadline)
    && interval == Interval(AtLeastOne(asked), polls) && now == LastAt(start, polls)
    && |waits| == |polls| && Paced(asked, polls, waits)
  }

  /** The wait ended here: patient, well paced, and with the answer it was given. */
  predicate Over(asked: int, start: int, deadline: int, polls: seq<Poll>, waits: seq<int>, now: int, r: Login) {
    Patient(start, AtLeastOne(asked), deadline, polls) && EndsAs(polls, deadline, now, r) && Paced(asked, polls, waits)
  }

  lemma PacedPush(asked: int, polls: seq<Poll>, waits: seq<int>, wait: int)
    requires Paced(asked, polls, waits) && |waits| == |polls| && wait == Interval(AtLeastOne(asked), polls)
    ensures Paced(asked, polls, waits + [wait])
  {
    IntervalIs(AtLeastOne(asked), polls);
    assert polls[..|polls|] == polls;
  }

  lemma PacedPoll(asked: int, polls: seq<Poll>, waits: seq<int>, p: Poll)
    requires Paced(asked, polls, waits)
    ensures Paced(asked, polls + [p], waits)
  {
    var more := polls + [p];
    forall i | 0 <= i < |waits| ensures waits[i] == AtLeastOne(asked) + 5 * SlowDowns(more[..i]) {
      assert more[..i] == polls[..i] && waits[i] == AtLeastOne(asked) + 5 * SlowDowns(polls[..i]);
    }
  }

  lemma AnswerEnds(deadline: int, polls: seq<Poll>, p: Poll)
    requires Unsettled(polls, deadline) && p.at < deadline
    ensures match Settled(p.answer)
      case Some(r) => EndsAs(polls + [p], deadline, p.at, r)
      case None => Unsettled(polls + [p], deadline)
  {}

  lemma PatientPush(asked: int, start: int, deadline: int, polls: seq<Poll>, waits: seq<int>, interval: int, now: int, p: Poll)
    requires Waiting(asked, start, deadline, polls, waits, interval, now)
    requires now + interval <= p.at < deadline
    ensures Patient(start, AtLeastOne(asked), deadline, polls + [p])
    ensures Interval(AtLeastOne(asked), polls + [p]) == interval + if p.answer.SlowDown? then SLOW_DOWN_STEP else 0
  {
    assert (polls + [p])[..|polls|] == polls;
    if polls != [] { assert polls[|polls| - 1].answer == Pending || polls[|polls| - 1].answer == SlowDown; }
  }

  lemma PollAdds(asked: int, start: int, deadline: int, polls: seq<Poll>, waits: seq<int>, interval: int, now: int, p: Poll)
    requires Waiting(asked, start, deadline, polls, waits, interval, now)
    requires now + interval <= p.at < deadline
    ensures match Settled(p.answer)
      case Some(r) => Over(asked, start, deadline, polls + [p], waits + [interval], p.at, r)
      case None =>
        var more := if p.answer.SlowDown? then SLOW_DOWN_STEP else 0;
        Waiting(asked, start, deadline, polls + [p], waits + [interval], interval + more, p.at)
  {
    PacedPush(asked, polls, waits, interval);
    PacedPoll(asked, polls, waits + [interval], p);
    AnswerEnds(deadline, polls, p);
    PatientPush(asked, start, deadline, polls, waits, interval, now, p);
  }

  lemma TimeIsUp(asked: int, start: int, deadline: int, polls: seq<Poll>, waits: seq<int>, interval: int, now: int, at: int)
    requires Waiting(asked, start, deadline, polls, waits, interval, now) && at >= deadline
    ensures Over(asked, start, deadline, polls, waits + [interval], at, TimedOut)
  {
    PacedPush(asked, polls, waits, interval);
    assert polls != [] ==> polls[|polls| - 1].answer == Pending || polls[|polls| - 1].answer == SlowDown;
    assert EndsAs(polls, deadline, at, TimedOut);
  }

  /**
    The polling loop of `login`, and the polls and waits it made. It always ends, at the latest at the
    first look past the deadline.
  */
  method AwaitApproval(issuer: Approval, asked: int, lifetime: int) returns (r: Login, ghost polls: seq<Poll>, ghost waits: seq<int>)
    modifies issuer
    ensures issuer.polls == old(issuer.polls) + polls && issuer.waits == old(issuer.waits) + waits
    ensures Over(asked, old(issuer.now), old(issuer.now) + lifetime, polls, waits, issuer.now, r)
  {
    var interval := if asked < 1 then 1 else asked;
    ghost var start := issuer.now;
    var deadline := issuer.now + lifetime;
    polls, waits := [], [];
    while true
      invariant issuer.polls == old(issuer.polls) + polls && issuer.waits == old(issuer.waits) + waits && interval >= 1
      invariant Waiting(asked, start, deadline, polls, waits, interval, issuer.now)
      decreases deadline - issuer.now
    {
      ghost var last := issuer.now;
      issuer.Sleep(interval);
      if issuer.now >= deadline {
        TimeIsUp(asked, start, deadline, polls, waits, interval, last, issuer.now);
        waits := waits + [interval];
        return TimedOut, polls, waits;
      }
      var answer := issuer.Ask();
      PollAdds(asked, start, deadline, polls, waits, interval, last, Poll(issuer.now, answer));
      polls, waits := polls + [Poll(issuer.now, answer)], waits + [interval];
      if answer.SlowDown? {
        interval := interval + SLOW_DOWN_STEP;
      } else if !answer.Pending? {
        return if answer.Approved? then SignedIn else if answer.Denied? then WasDenied else if answer.Expired? then TimedOut else Broken, polls, waits;
      }
    }
  }
}
