/**
 network_session_handler.cpp in its own form: a vector of token objects that is searched from
 the front, refreshed in place, pushed to and compacted in place. Each method is one critical
 section of the mutex and is proved to be the corresponding operation of SessionStore.
 */
module SessionHandlers {
  import opened Wrappers
  import opened SessionTokens
  import Store = SessionStore

  type SessionLimit = x: int | 0 <= x < 0x1_0000

  ghost function Views(ts: seq<SessionToken>): (ss: seq<Session>)
    reads ts
    ensures |ss| == |ts|
    ensures forall i :: 0 <= i < |ts| ==> ss[i] == ts[i].View()
  {
    seq(|ts|, i requires 0 <= i < |ts| reads ts => ts[i].View())
  }

  lemma {:induction false} KeptAppend(ss: seq<Session>, readings: seq<Stamp>, s: Session, now: Stamp)
    requires |ss| == |readings|
    ensures Store.Kept(ss + [s], readings + [now])
         == Store.Kept(ss, readings) + if Active(s.life, now) then [s] else []
  {
    if ss == [] {
      assert ss + [s] == [s] && readings + [now] == [now];
      assert [s][1..] == [] && [now][1..] == [];
    } else {
      var first := if Active(ss[0].life, readings[0]) then [ss[0]] else [];
      var last := if Active(s.life, now) then [s] else [];
      assert (ss + [s])[1..] == ss[1..] + [s] && (readings + [now])[1..] == readings[1..] + [now];
      assert (ss + [s])[0] == ss[0] && (readings + [now])[0] == readings[0];
      KeptAppend(ss[1..], readings[1..], s, now);
      assert first + (Store.Kept(ss[1..], readings[1..]) + last) == (first + Store.Kept(ss[1..], readings[1..])) + last;
    }
  }

  lemma KeptSoFar(ss: seq<Session>, readings: seq<Stamp>, r: nat)
    requires r < |ss| == |readings|
    ensures Store.Kept(ss[..r + 1], readings[..r + 1])
         == Store.Kept(ss[..r], readings[..r]) + if Active(ss[r].life, readings[r]) then [ss[r]] else []
  {
    assert ss[..r + 1] == ss[..r] + [ss[r]] && readings[..r + 1] == readings[..r] + [readings[r]];
    KeptAppend(ss[..r], readings[..r], ss[r], readings[r]);
  }

  /** After r of the elements of `all`: the first w places hold distinct ones of those r, and the
      elements not yet looked at are in place. */
  ghost predicate Front(cur: seq<SessionToken>, all: seq<SessionToken>, w: nat, r: nat) {
    && w <= r <= |cur| == |all|
    && (forall i :: r <= i < |all| ==> cur[i] == all[i])
    && (forall i :: 0 <= i < w ==> cur[i] in all[..r])
    && (forall i, j :: 0 <= i < j < w ==> cur[i] != cur[j])
  }

  lemma FrontGrows(cur: seq<SessionToken>, all: seq<SessionToken>, w: nat, r: nat)
    requires Front(cur, all, w, r) && r < |all|
    requires forall i, j :: 0 <= i < j < |all| ==> all[i] != all[j]
    ensures Front(cur, all, w, r + 1)
    ensures Front(cur[w := cur[r]], all, w + 1, r + 1)
    ensures cur[w := cur[r]][..w + 1] == cur[..w] + [cur[r]]
  {
    assert all[..r + 1] == all[..r] + [all[r]];
  }

  ghost predicate Compacted(cur: seq<SessionToken>, all: seq<SessionToken>, readings: seq<Stamp>, w: nat, r: nat)
    reads cur, all
  {
    && Front(cur, all, w, r) && |readings| == |all|
    && Views(cur[..w]) == Store.Kept(Views(all)[..r], readings[..r])
  }

  /** One step of the compaction, for a session that is active and for one that is not. */
  lemma CompactOneMore(cur: seq<SessionToken>, all: seq<SessionToken>, readings: seq<Stamp>, w: nat, r: nat)
    requires Compacted(cur, all, readings, w, r) && r < |all|
    requires forall i, j :: 0 <= i < j < |all| ==> all[i] != all[j]
    ensures if cur[r].IsActive(readings[r]) then Compacted(cur[w := cur[r]], all, readings, w + 1, r + 1)
            else Compacted(cur, all, readings, w, r + 1)
  {
    KeptSoFar(Views(all), readings, r);
    FrontGrows(cur, all, w, r);
    assert Views(cur[..w] + [cur[r]]) == Views(cur[..w]) + [cur[r].View()];
  }

  /** std::ranges::remove_if with one clock reading per session: moves the active sessions to the
      front, in order, and says where they end. */
  method RemoveIf(all: seq<SessionToken>, readings: seq<Stamp>) returns (cur: seq<SessionToken>, end: nat)
    requires |readings| == |all| && forall i, j :: 0 <= i < j < |all| ==> all[i] != all[j]
    ensures Front(cur, all, end, |all|)
    ensures Views(cur[..end]) == Store.Kept(Views(all), readings)
  {
    cur, end := all, 0;
    for r := 0 to |all|
      invariant Compacted(cur, all, readings, end, r)
    {
      CompactOneMore(cur, all, readings, end, r);
      if cur[r].IsActive(readings[r]) {
        cur := cur[end := cur[r]];
        end := end + 1;
      }
    }
    assert Views(all)[..|all|] == Views(all) && readings[..|all|] == readings;
  }

  class SessionHandler {
    var sessions: seq<SessionToken>
    const maxSessions: SessionLimit
    var clean: bool
    var panicClean: bool

    ghost predicate Valid()
      reads this
    {
      forall i, j :: 0 <= i < j < |sessions| ==> sessions[i] != sessions[j]
    }

    ghost function View(): seq<Session>
      reads this, sessions
    {
      Views(sessions)
    }

    constructor (maxSessions: SessionLimit)
      ensures Valid() && View() == [] && this.maxSessions == maxSessions && clean && !panicClean
    {
      this.sessions := [];
      this.maxSessions := maxSessions;
      this.clean := true;
      this.panicClean := false;
    }

    /** `token` is what generate_token would return; it is used only if there is room. */
    method NewSession(owner: string, token: string, now: Stamp) returns (issued: Option<string>)
      requires Valid()
      modifies this`sessions, this`panicClean
      ensures Valid() && View() == old(Store.After(maxSessions, View(), Store.Login(owner, token, now)))
      ensures old(Store.ReplyTo(maxSessions, View(), Store.Login(owner, token, now))) ==
                if issued.Some? then Store.Admitted else Store.Refused
      ensures issued == None || issued == Some(token)
      ensures panicClean == (old(panicClean) || issued == None)
      ensures forall t :: t in sessions ==> t in old(sessions) || fresh(t)
    {
      if |sessions| < maxSessions {
        var t := new SessionToken(owner, token, now);
        sessions := sessions + [t];
        issued := Some(token);
      } else {
        CleanInactiveSessions();
        issued := None;
      }
    }

    method CleanInactiveSessions()
      modifies this`panicClean
      ensures panicClean
    {
      panicClean := true;
    }

    /** The linear search all lookups use: the first session with the token, if any. */
    method FindToken(token: string) returns (i: nat)
      ensures i == Store.Find(View(), token)
    {
      i := 0;
      while i < |sessions| && sessions[i].token != token
        invariant i <= |sessions|
        invariant forall j :: 0 <= j < i ==> sessions[j].token != token
      {
        i := i + 1;
      }
    }

    method ValidateSession(token: string, check: Stamp, refresh: Stamp) returns (ok: bool)
      requires Valid()
      modifies sessions
      ensures View() == old(Store.After(maxSessions, View(), Store.Validate(token, check, refresh)))
      ensures Store.Valid(ok) == old(Store.ReplyTo(maxSessions, View(), Store.Validate(token, check, refresh)))
    {
      var i := FindToken(token);
      ok := false;
      if i < |sessions| {
        ok := sessions[i].ValidateToken(check, refresh);
      }
    }

    method GetUsernameByToken(token: string, now: Stamp) returns (name: Option<string>)
      ensures Store.Owner(name) == Store.ReplyTo(maxSessions, View(), Store.Lookup(token, now))
    {
      var i := FindToken(token);
      name := None;
      if i < |sessions| && sessions[i].IsActive(now) {
        name := Some(sessions[i].owner);
      }
    }

    /** remove_if followed by erase of the tail. */
    method RemoveInactive(readings: seq<Stamp>)
      requires Valid() && |readings| == |sessions|
      modifies this`sessions
      ensures Valid() && View() == old(Store.After(maxSessions, View(), Store.Sweep(readings)))
      ensures forall t :: t in sessions ==> t in old(sessions)
    {
      var compacted, end := RemoveIf(sessions, readings);
      sessions := compacted[..end];
    }

    /** One turn of the cleaner's loop, after its wait has returned with the mutex held. */
    method CleanupTurn(readings: seq<Stamp>) returns (stop: bool)
      requires Valid() && |readings| == |sessions|
      modifies this`sessions, this`panicClean
      ensures stop == !clean
      ensures stop ==> View() == old(View()) && sessions == old(sessions) && panicClean == old(panicClean)
      ensures !stop ==> View() == old(Store.After(maxSessions, View(), Store.Sweep(readings))) && !panicClean
      ensures Valid() && forall t :: t in sessions ==> t in old(sessions)
    {
      stop := !clean;
      if stop {
        return;
      }
      if sessions != [] {
        RemoveInactive(readings);
      }
      if panicClean {
        panicClean := false;
      }
    }
  }
}
