/**
  A signed-in session shared by many threads. Every exchange of the refresh material happens
  under the session's lock, so a run is any sequence of the locked sections, whichever threads
  they belong to. The server rotates the token on every refresh it honours and takes a spent
  token for a replay, which revokes the whole family.
*/
module IdentitySessions {
  import opened Options

  // ---------------------------------------------------------------- the server

  /** `live` is the one token the server would honour, `unminted` the next it would mint. */
  datatype Server = Server(byCookie: bool, live: Option<nat>, spent: set<nat>, unminted: nat, honoured: nat, replays: nat, undelivered: nat)

  /** An access token and when it stops being accepted. */
  datatype Access = Access(id: nat, expires: int)

  /** What becomes of one refresh: refused, honoured with the answer lost, or honoured and answered. */
  datatype Fate = Refuse | Lose | Answer(json: bool, carries: bool, access: Option<Access>)

  datatype Response = Failed | NotOk | Good(json: bool, cookie: Option<nat>, refresh: Option<nat>, access: Option<Access>)

  /** Whether the rotated token reaches the client: in a cookie, or in a body that is JSON. */
  predicate Delivers(byCookie: bool, fate: Fate) {
    fate.Answer? && fate.carries && (byCookie || fate.json)
  }

  function Post(s: Server, body: Option<nat>, cookie: Option<nat>, fate: Fate): (Server, Response) {
    var token := if s.byCookie then cookie else body;
    if token.Some? && token.value in s.spent then
      (s.(live := None, replays := s.replays + 1), NotOk)
    else if fate.Refuse? || token.None? || token != s.live then
      (s, NotOk)
    else
      var s1 := s.(live := Some(s.unminted), spent := s.spent + {token.value}, unminted := s.unminted + 1, honoured := s.honoured + 1,
                   undelivered := s.undelivered + if Delivers(s.byCookie, fate) then 0 else 1);
      if fate.Lose? then (s1, Failed) else
      (s1, Good(fate.json,
                if s.byCookie && fate.carries then Some(s.unminted) else None,
                if !s.byCookie && fate.carries && fate.json then Some(s.unminted) else None,
                if fate.json then fate.access else None))
  }

  // ---------------------------------------------------------------- the session

  datatype Session = Session(access: Access, refresh: Option<nat>, cookie: Option<nat>, refreshes: nat, skew: int)

  datatype World = World(session: Session, server: Server)

  /** Keeps what a 200 answer rotated, even when it brings no access token. */
  function Absorb(s: Session, r: Response): (Session, bool)
    requires r.Good?
  {
    var s1 := s.(cookie := if r.cookie.Some? then r.cookie else s.cookie,
                 refresh := if r.refresh.Some? then r.refresh else s.refresh);
    if r.access.None? then (s1, false)
    else (s1.(access := r.access.value, refreshes := s.refreshes + 1), true)
  }

  /** Exchanges the refresh material. The flag is whether a new access token came of it. */
  function Exchange(w: World, fate: Fate): (World, bool) {
    var (server, response) := Post(w.server, w.session.refresh, w.session.cookie, fate);
    if !response.Good? then (World(w.session, server), false) else
    var (session, ok) := Absorb(w.session, response);
    (World(session, server), ok)
  }

  /** One locked section: a lazy refresh before a request, a retry after a refusal, or a plain refresh. */
  datatype Op = Bearer(now: int, fate: Fate) | Retry(token: Access, fate: Fate) | Refresh(fate: Fate)

  predicate NearExpiry(s: Session, now: int) {
    now >= s.access.expires - s.skew
  }

  function Do(w: World, op: Op): World {
    match op
    case Bearer(now, fate) => if NearExpiry(w.session, now) then Exchange(w, fate).0 else w
    case Retry(token, fate) => if token != w.session.access then w else Exchange(w, fate).0
    case Refresh(fate) => Exchange(w, fate).0
  }

  function Run(w: World, ops: seq<Op>): World {
    if ops == [] then w else Do(Run(w, ops[..|ops| - 1]), ops[|ops| - 1])
  }

  function Material(w: World): Option<nat> {
    if w.server.byCookie then w.session.cookie else w.session.refresh
  }

  /** A session just signed in holds the server's live token, and nothing has been spent. */
  predicate SignedIn(w: World) {
    && Material(w).Some? && w.server.live == Material(w)
    && w.server.spent == {} && w.server.live.value < w.server.unminted
    && w.server.replays == w.server.undelivered == 0
  }

  ghost predicate Inv(w: World) {
    && Material(w).Some?
    && (forall t :: t in w.server.spent ==> t < w.server.unminted)
    && Material(w).value < w.server.unminted
    && (w.server.live.Some? ==> w.server.live.value !in w.server.spent && w.server.live.value < w.server.unminted)
    && (w.server.undelivered == 0 ==> w.server.replays == 0 && w.server.live == Material(w))
    && (w.server.undelivered > 0 ==> Material(w).value in w.server.spent)
  }

  lemma ExchangeKeeps(w: World, fate: Fate)
    requires Inv(w)
    ensures Inv(Exchange(w, fate).0)
  {}

  lemma {:induction false} RunKeeps(w: World, ops: seq<Op>)
    requires Inv(w)
    ensures Inv(Run(w, ops))
  {
    if ops != [] {
      var n := |ops| - 1;
      RunKeeps(w, ops[..n]);
      ExchangeKeeps(Run(w, ops[..n]), ops[n].fate);
    }
  }

  /**
    No spent token is ever presented, in any order of any threads' calls, while every refresh the
    server honoured had its rotated token delivered.
  */
  lemma NeverReplayed(w: World, ops: seq<Op>)
    requires SignedIn(w)
    ensures Run(w, ops).server.replays > 0 ==> Run(w, ops).server.undelivered > 0
  {
    RunKeeps(w, ops);
  }

  /** The session's next exchange is a replay exactly when some honoured answer was lost before it. */
  lemma ReplayExactly(w: World, ops: seq<Op>, fate: Fate)
    requires SignedIn(w)
    ensures var before := Run(w, ops);
      Exchange(before, fate).0.server.replays == before.server.replays + (if before.server.undelivered > 0 then 1 else 0)
  {
    RunKeeps(w, ops);
  }

  /** An answer that is not JSON costs the session a token rotated in the body, and not one rotated in a cookie. */
  lemma NotJsonLosesBodyToken(w: World, access: Option<Access>, fate: Fate)
    requires SignedIn(w)
    ensures Exchange(Exchange(w, Answer(false, true, access)).0, fate).0.server.replays == if w.server.byCookie then 0 else 1
  {
    RunKeeps(w, []);
    ExchangeKeeps(w, Answer(false, true, access));
  }

  /** The op is a caller with the stale token in hand: refused with it, or finding it near its expiry. */
  predicate FromStale(op: Op, stale: Access) {
    op.Bearer? || (op.Retry? && op.token == stale)
  }

  /** Any token the server answers is another one, and not itself near its expiry for any caller of the burst. */
  ghost predicate AnswersAreNew(ops: seq<Op>, stale: Access, skew: int) {
    forall i, j :: 0 <= i < |ops| && 0 <= j < |ops| && ops[i].fate.Answer? && ops[i].fate.access.Some? ==>
      var a := ops[i].fate.access.value;
      a != stale && (ops[j].Bearer? ==> ops[j].now < a.expires - skew)
  }

  lemma {:induction false} SettledStays(w: World, stale: Access, ops: seq<Op>)
    requires w.session.access != stale
    requires forall i :: 0 <= i < |ops| ==> FromStale(ops[i], stale)
    requires forall i :: 0 <= i < |ops| && ops[i].Bearer? ==> !NearExpiry(w.session, ops[i].now)
    ensures Run(w, ops) == w
  {
    if ops != [] { SettledStays(w, stale, ops[..|ops| - 1]); }
  }

  lemma {:induction false} BurstPrefix(w: World, stale: Access, ops: seq<Op>, k: nat)
    requires k <= |ops| && w.session.access == stale
    requires forall i :: 0 <= i < |ops| ==> FromStale(ops[i], stale)
    requires AnswersAreNew(ops, stale, w.session.skew)
    ensures var after := Run(w, ops[..k]);
      && after.session.skew == w.session.skew
      && after.session.refreshes == w.session.refreshes + (if after.session.access == stale then 0 else 1)
      && (after.session.access != stale ==> forall i :: 0 <= i < |ops| && ops[i].Bearer? ==> !NearExpiry(after.session, ops[i].now))
  {
    if k > 0 {
      BurstPrefix(w, stale, ops, k - 1);
      assert ops[..k][..k - 1] == ops[..k - 1];
      assert Run(w, ops[..k]) == Do(Run(w, ops[..k - 1]), ops[k - 1]);
    }
  }

  /**
    A burst of callers with one stale token, some refused and some about to be, in any order:
    however many there are, at most one refresh succeeds.
  */
  lemma BurstRefreshesOnce(w: World, stale: Access, ops: seq<Op>)
    requires w.session.access == stale
    requires forall i :: 0 <= i < |ops| ==> FromStale(ops[i], stale)
    requires AnswersAreNew(ops, stale, w.session.skew)
    ensures var after := Run(w, ops);
      after.session.refreshes == w.session.refreshes + (if after.session.access == stale then 0 else 1)
  {
    BurstPrefix(w, stale, ops, |ops|);
    assert ops[..|ops|] == ops;
  }

  /** The first exchange that brings a token is the last: everyone after it retries on that token. */
  lemma OneRefreshServesTheRest(w: World, fate: Fate, ops: seq<Op>)
    requires Exchange(w, fate).1
    requires forall i :: 0 <= i < |ops| ==> FromStale(ops[i], w.session.access)
    requires AnswersAreNew([Retry(w.session.access, fate)] + ops, w.session.access, w.session.skew)
    ensures Run(Exchange(w, fate).0, ops) == Exchange(w, fate).0
  {
    var all := [Retry(w.session.access, fate)] + ops;
    assert all[0].fate == fate;
    forall i | 0 <= i < |ops| && ops[i].Bearer? ensures !NearExpiry(Exchange(w, fate).0.session, ops[i].now) {
      assert all[i + 1] == ops[i];
    }
    SettledStays(Exchange(w, fate).0, w.session.access, ops);
  }

  // ---------------------------------------------------------------- the objects

  class RefreshServer {
    var state: Server
    /** How many refreshes were posted. */
    ghost var posts: nat

    constructor (byCookie: bool, token: nat)
      ensures state == Server(byCookie, Some(token), {}, token + 1, 0, 0, 0) && posts == 0
    {
      posts := 0;
      state := Server(byCookie, Some(token), {}, token + 1, 0, 0, 0);
    }

    method PostRefresh(body: Option<nat>, cookie: Option<nat>) returns (response: Response, ghost fate: Fate)
      modifies this
      ensures (state, response) == Post(old(state), body, cookie, fate)
      ensures posts == old(posts) + 1
    {
      posts := posts + 1;
      var mood: Fate := *;
      fate := mood;
      var next, answer := Post(state, body, cookie, mood).0, Post(state, body, cookie, mood).1;
      state := next;
      response := answer;
    }
  }

  /** The session object. Each method is one locked section. */
  class IdentitySession {
    const server: RefreshServer
    const skew: int
    var access: Access
    var refresh: Option<nat>
    var cookie: Option<nat>
    var refreshes: nat

    ghost function View(): World
      reads this, server
    {
      World(Session(access, refresh, cookie, refreshes, skew), server.state)
    }

    constructor (server: RefreshServer, skew: int, access: Access, refresh: Option<nat>, cookie: Option<nat>)
      ensures this.server == server && this.skew == skew
      ensures View() == World(Session(access, refresh, cookie, 0, skew), server.state)
    {
      this.server := server;
      this.skew := skew;
      this.access := access;
      this.refresh := refresh;
      this.cookie := cookie;
      this.refreshes := 0;
    }

    method AbsorbRefresh(r: Response) returns (ok: bool)
      requires r.Good?
      modifies this
      ensures refreshes == old(refreshes) + if ok then 1 else 0
      ensures (View().session, ok) == Absorb(old(View()).session, r)
    {
      if r.cookie.Some? {
        cookie := r.cookie;
      }
      if r.refresh.Some? {
        refresh := r.refresh;
      }
      if r.access.None? {
        return false;
      }
      access := r.access.value;
      refreshes := refreshes + 1;
      ok := true;
    }

    method RefreshLocked() returns (ok: bool, ghost fate: Fate)
      modifies this, server
      ensures (View(), ok) == Exchange(old(View()), fate)
      ensures server.posts == old(server.posts) + 1 && refreshes == old(refreshes) + if ok then 1 else 0
    {
      var response;
      response, fate := server.PostRefresh(refresh, cookie);
      if !response.Good? {
        return false, fate;
      }
      ok := AbsorbRefresh(response);
    }

    /** `bearer_token`: refreshes first when the current token is near its expiry. `None` is `RefreshFailed`. */
    method BearerToken(now: int) returns (token: Option<Access>, ghost fate: Fate)
      modifies this, server
      ensures View() == Do(old(View()), Bearer(now, fate))
      ensures token == if NearExpiry(old(View()).session, now) && !Exchange(old(View()), fate).1 then None else Some(access)
      ensures old(access).expires - now > skew ==> token == Some(old(access)) && View() == old(View()) && server.posts == old(server.posts)
      ensures old(access).expires - now <= skew ==>
        server.posts == old(server.posts) + 1 && (token.Some? <==> refreshes == old(refreshes) + 1) && (token.Some? ==> token.value == access)
    {
      fate := Refuse;
      if now >= access.expires - skew {
        var ok;
        ok, fate := RefreshLocked();
        if !ok {
          return None, fate;
        }
      }
      token := Some(access);
    }

    /** `refresh_for_retry`: refreshes unless another caller already replaced the refused token. */
    method RefreshForRetry(refused: Access) returns (token: Option<Access>, ghost fate: Fate)
      modifies this, server
      ensures View() == Do(old(View()), Retry(refused, fate))
      ensures refused != old(access) ==> token == Some(access) && access == old(access)
      ensures refused == old(access) ==> token == if Exchange(old(View()), fate).1 then Some(access) else None
      ensures server.posts == old(server.posts) + if refused == old(access) then 1 else 0
    {
      fate := Refuse;
      if refused != access {
        return Some(access), fate;
      }
      var ok;
      ok, fate := RefreshLocked();
      token := if ok then Some(access) else None;
    }
  }
}
