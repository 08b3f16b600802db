/**
 The session service itself, changing its keys command by command. Every call ends in the state,
 and with the answer, that AuthSessions gives it, so what holds of every run there holds of this class.
 */
module AuthService {
  import opened Wrappers
  import opened AuthSessions

  class Service {
    const ttl: nat
    var now: int
    var live: map<Token, Live>
    var used: map<Token, Tombstone>
    var families: map<Family, Lineage>

    // What has happened so far. No call reads these.
    ghost var issued: set<Token>
    ghost var begun: set<Family>
    ghost var spent: map<Token, Spending>
    ghost var killed: set<Family>

    ghost function View(): (s: State)
      reads this
    {
      State(now, live, used, families, issued, begun, spent, killed)
    }

    constructor (ttl: nat)
      ensures View() == EMPTY && this.ttl == ttl
    {
      this.ttl := ttl;
      now, live, used, families := 0, map[], map[], map[];
      issued, begun, spent, killed := {}, {}, map[], {};
    }

    method IssueSession(memberships: seq<Membership>, shop: Option<Id>, family: Family, drawn: Token)
        returns (outcome: Outcome)
      modifies this
      ensures (View(), outcome) == AuthSessions.IssueSession(ttl, old(View()), memberships, shop, family, drawn)
    {
      var active := None;
      if shop.None? {
        if |memberships| > 0 {
          active := Some(memberships[0]);
        }
      } else {
        var i := 0;
        while i < |memberships| && memberships[i].shop != shop.value
          invariant 0 <= i <= |memberships|
          invariant FindShop(memberships, shop.value) == FindShop(memberships[i..], shop.value)
        {
          i := i + 1;
        }
        if i < |memberships| {
          active := Some(memberships[i]);
        }
      }
      if active.None? {
        return Forbidden;
      }
      var record := Live(active.value.staff, active.value.shop, family, now + ttl);
      live := live[drawn := record];
      var members := if family in families then families[family].members else {};
      families := families[family := Lineage(members + {drawn}, now + ttl)];
      issued, begun := issued + {drawn}, begun + {family};
      outcome := Issued(drawn, record.staff, record.shop, family);
    }

    method KillFamily(family: Family) returns (count: nat)
      modifies this
      ensures View() == AuthSessions.KillFamily(old(View()), family)
      ensures count == |Members(old(View()), family)|
    {
      var tokens := if family in families then families[family].members else {};
      if tokens != {} {
        live := live - tokens;
      }
      families := families - {family};
      killed := killed + {family};
      count := |tokens|;
    }

    method Refresh(token: Token, memberships: seq<Membership>, drawn: Token) returns (outcome: Outcome)
      modifies this
      ensures (View(), outcome) == AuthSessions.Refresh(ttl, old(View()), token, memberships, drawn)
    {
      var raw := if token in live then Some(live[token]) else None;
      live := live - {token};
      if raw.None? {
        assert live == old(live);
        if token in used {
          var family := used[token].family;
          var count := KillFamily(family);
          return ReuseDetected(family, count);
        }
        return Expired;
      }
      var record := raw.value;
      used := used[token := Tombstone(record.family, now + ttl)];
      families := RemoveMember(families, record.family, token);
      spent := spent[token := Spending(record.family, now)];
      assert View() == Spend(ttl, old(View()), token);
      if |memberships| == 0 {
        return Inactive;
      }
      outcome := IssueSession(memberships, Some(record.shop), record.family, drawn);
    }

    method SwitchShop(memberships: seq<Membership>, shop: Id, family: Family, drawn: Token) returns (outcome: Outcome)
      modifies this
      ensures (View(), outcome) == AuthSessions.SwitchShop(ttl, old(View()), memberships, shop, family, drawn)
    {
      if |memberships| == 0 {
        return Inactive;
      }
      outcome := IssueSession(memberships, Some(shop), family, drawn);
    }

    method Revoke(token: Token)
      modifies this
      ensures View() == AuthSessions.Revoke(old(View()), token).0
    {
      if token in live {
        var _ := KillFamily(live[token].family);
        return;
      }
      live := live - {token};
      assert live == old(live);
    }
  }

  /** Two people present one token in turn: the first gets a session, the second ends both. */
  method StolenToken(service: Service, token: Token, memberships: seq<Membership>, first: Token, second: Token)
    returns (victim: Outcome, thief: Outcome)
    requires Invariant(service.ttl, service.View()) && service.ttl > 0
    requires token in service.live && first !in service.issued && second !in service.issued && first != second
    modifies service
    ensures thief == ReuseDetected(old(service.live[token].family), if victim.Issued? then 1 else 0)
    ensures Dead(service.View(), old(service.live[token].family))
    ensures Invariant(service.ttl, service.View())
  {
    ghost var family := service.live[token].family;
    ghost var before := service.View();
    CallKeeps(service.ttl, before, RefreshCall(token, memberships, first));
    TokenSpent(service.ttl, before, token, memberships, first);
    victim := service.Refresh(token, memberships, first);
    ghost var between := service.View();
    CallKeeps(service.ttl, between, RefreshCall(token, memberships, second));
    thief := service.Refresh(token, memberships, second);
    KilledIsDead(service.ttl, service.View(), family);
  }

  /** A token just presented is a tombstone, and its family holds the new token or nothing. */
  lemma TokenSpent(ttl: nat, s: State, token: Token, memberships: seq<Membership>, drawn: Token)
    requires Invariant(ttl, s) && token in s.live && drawn !in s.issued
    ensures var (after, outcome) := AuthSessions.Refresh(ttl, s, token, memberships, drawn);
            && token !in after.live && token in after.used && after.used[token].family == s.live[token].family
            && Members(after, s.live[token].family) == (if outcome.Issued? then {drawn} else {})
            && after.issued == (if outcome.Issued? then s.issued + {drawn} else s.issued)
  {
    assert LiveOk(s, token);
    var spent := Spend(ttl, s, token);
    assert Members(spent, s.live[token].family) == {};
  }
}
