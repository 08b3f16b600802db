/**
 Refresh-token families: what the session service keeps in its key-value store,
 call by call, with each call atomic and generated tokens fresh.
 */
module AuthSessions {
  import opened Wrappers

  type Token = nat
  type Family = nat
  type Id = string

  datatype Membership = Membership(staff: Id, shop: Id)

  /** A live token's record, and when its key expires. */
  datatype Live = Live(staff: Id, shop: Id, family: Family, expires: int)

  /** What is left of a spent token: the family it belonged to. */
  datatype Tombstone = Tombstone(family: Family, expires: int)

  /** The tokens of a family that can be revoked together. */
  datatype Lineage = Lineage(members: set<Token>, expires: int)

  /** A token that was accepted, and when. Only history: nothing reads it. */
  datatype Spending = Spending(family: Family, at: int)

  /** The three kinds of key, the clock, and the history of the run. */
  datatype State = State(
    now: int,
    live: map<Token, Live>,
    used: map<Token, Tombstone>,
    families: map<Family, Lineage>,
    issued: set<Token>,
    begun: set<Family>,
    spent: map<Token, Spending>,
    killed: set<Family>)

  const EMPTY := State(0, map[], map[], map[], {}, {}, map[], {})

  datatype Outcome =
    | Issued(token: Token, staff: Id, shop: Id, family: Family)
    | Forbidden
    | Inactive
    | ReuseDetected(family: Family, revoked: nat)
    | Expired
    | SignedOut
    | Ticked

  function FindShop(memberships: seq<Membership>, shop: Id): Option<Membership> {
    if memberships == [] then None
    else if memberships[0].shop == shop then Some(memberships[0])
    else FindShop(memberships[1..], shop)
  }

  /** The membership a session is issued for: the first, or the one for the shop asked for. */
  function ActiveMembership(memberships: seq<Membership>, shop: Option<Id>): Option<Membership> {
    if shop.None? then (if memberships == [] then None else Some(memberships[0]))
    else FindShop(memberships, shop.value)
  }

  function Members(s: State, family: Family): set<Token> {
    if family in s.families then s.families[family].members else {}
  }

  function IssueSession(ttl: nat, s: State, memberships: seq<Membership>, shop: Option<Id>, family: Family,
      token: Token): (State, Outcome) {
    match ActiveMembership(memberships, shop)
    case None => (s, Forbidden)
    case Some(active) =>
      (s.(live := s.live[token := Live(active.staff, active.shop, family, s.now + ttl)],
          families := s.families[family := Lineage(Members(s, family) + {token}, s.now + ttl)],
          issued := s.issued + {token},
          begun := s.begun + {family}),
       Issued(token, active.staff, active.shop, family))
  }

  function KillFamily(s: State, family: Family): State {
    s.(live := s.live - Members(s, family),
       families := s.families - {family},
       killed := s.killed + {family})
  }

  /** A set key goes away with its last member. */
  function RemoveMember(families: map<Family, Lineage>, family: Family, token: Token): map<Family, Lineage> {
    if family !in families then families
    else
      var rest := families[family].members - {token};
      if rest == {} then families - {family} else families[family := families[family].(members := rest)]
  }

  function Spend(ttl: nat, s: State, token: Token): State
    requires token in s.live
  {
    var family := s.live[token].family;
    s.(live := s.live - {token},
       used := s.used[token := Tombstone(family, s.now + ttl)],
       families := RemoveMember(s.families, family, token),
       spent := s.spent[token := Spending(family, s.now)])
  }

  /** `memberships` is what the staff table holds for the record's owner; `drawn` the next random token. */
  function Refresh(ttl: nat, s: State, token: Token, memberships: seq<Membership>, drawn: Token): (State, Outcome) {
    if token !in s.live then
      if token in s.used then
        (KillFamily(s, s.used[token].family),
         ReuseDetected(s.used[token].family, |Members(s, s.used[token].family)|))
      else (s, Expired)
    else
      var record, after := s.live[token], Spend(ttl, s, token);
      if memberships == [] then (after, Inactive)
      else IssueSession(ttl, after, memberships, Some(record.shop), record.family, drawn)
  }

  function SwitchShop(ttl: nat, s: State, memberships: seq<Membership>, shop: Id, family: Family,
      drawn: Token): (State, Outcome) {
    if memberships == [] then (s, Inactive)
    else IssueSession(ttl, s, memberships, Some(shop), family, drawn)
  }

  function Revoke(s: State, token: Token): (State, Outcome) {
    (if token in s.live then KillFamily(s, s.live[token].family) else s, SignedOut)
  }

  /** Time passes, and keys whose time has come are gone. */
  function Tick(s: State, to: int): State {
    s.(now := to,
       live := map t | t in s.live && s.live[t].expires > to :: s.live[t],
       used := map t | t in s.used && s.used[t].expires > to :: s.used[t],
       families := map f | f in s.families && s.families[f].expires > to :: s.families[f])
  }

  // ----- Runs -----

  datatype Call =
    | SignInCall(memberships: seq<Membership>, shop: Option<Id>, family: Family, drawn: Token)
    | SwitchShopCall(memberships: seq<Membership>, toShop: Id, family: Family, drawn: Token)
    | RefreshCall(token: Token, memberships: seq<Membership>, drawn: Token)
    | RevokeCall(token: Token)
    | TickCall(to: int)

  /** Random tokens and family ids have not been drawn before, and clocks do not run backwards. */
  predicate Enabled(s: State, c: Call) {
    match c
    case SignInCall(_, _, family, drawn) => drawn !in s.issued && family !in s.begun
    case SwitchShopCall(_, _, family, drawn) => drawn !in s.issued && family !in s.begun
    case RefreshCall(_, _, drawn) => drawn !in s.issued
    case RevokeCall(_) => true
    case TickCall(to) => s.now <= to
  }

  function Answer(ttl: nat, s: State, c: Call): (State, Outcome) {
    match c
    case SignInCall(memberships, shop, family, drawn) => IssueSession(ttl, s, memberships, shop, family, drawn)
    case SwitchShopCall(memberships, shop, family, drawn) => SwitchShop(ttl, s, memberships, shop, family, drawn)
    case RefreshCall(token, memberships, drawn) => Refresh(ttl, s, token, memberships, drawn)
    case RevokeCall(token) => Revoke(s, token)
    case TickCall(to) => (Tick(s, to), Ticked)
  }

  function Do(ttl: nat, s: State, c: Call): State {
    Answer(ttl, s, c).0
  }

  predicate Runs(ttl: nat, s: State, calls: seq<Call>, t: State)
    decreases |calls|
  {
    if calls == [] then s == t
    else Enabled(s, calls[0]) && Runs(ttl, Do(ttl, s, calls[0]), calls[1..], t)
  }

  // ----- What every state keeps -----

  /** A live token is its family's one member, expires with it, was never spent, and its family was never killed. */
  ghost predicate LiveOk(s: State, t: Token)
    requires t in s.live
  {
    var family := s.live[t].family;
    && t in s.issued && family in s.begun && family !in s.killed
    && family in s.families && s.families[family] == Lineage({t}, s.live[t].expires)
    && s.now < s.live[t].expires
    && t !in s.spent
  }

  ghost predicate FamilyOk(s: State, f: Family)
    requires f in s.families
  {
    exists t :: t in s.families[f].members && t in s.live && s.live[t].family == f
  }

  ghost predicate SpentOk(ttl: nat, s: State, t: Token) {
    && (t in s.spent ==> t in s.issued && s.spent[t].at <= s.now && s.spent[t].family in s.begun)
    && (t in s.used <==> t in s.spent && s.now < s.spent[t].at + ttl)
    && (t in s.used ==> s.used[t] == Tombstone(s.spent[t].family, s.spent[t].at + ttl))
  }

  ghost predicate Invariant(ttl: nat, s: State) {
    && (forall t :: t in s.live ==> LiveOk(s, t))
    && (forall f :: f in s.families ==> FamilyOk(s, f))
    && (forall t :: SpentOk(ttl, s, t))
    && s.killed <= s.begun
  }

  lemma IssueKeeps(ttl: nat, s: State, memberships: seq<Membership>, shop: Option<Id>, family: Family, drawn: Token)
    requires Invariant(ttl, s) && ttl > 0 && drawn !in s.issued && family !in s.families && family !in s.killed
    ensures Invariant(ttl, IssueSession(ttl, s, memberships, shop, family, drawn).0)
  {
    var t := IssueSession(ttl, s, memberships, shop, family, drawn).0;
    forall u | u in t.live
      ensures LiveOk(t, u)
    {
      assert SpentOk(ttl, s, u);
      if u in s.live {
        assert LiveOk(s, u);
      }
    }
    forall f | f in t.families
      ensures FamilyOk(t, f)
    {
      if f in s.families {
        assert FamilyOk(s, f);
      } else if t != s {
        assert drawn in t.families[f].members;
      }
    }
    forall u
      ensures SpentOk(ttl, t, u)
    {
      assert SpentOk(ttl, s, u);
    }
  }

  lemma KillKeeps(ttl: nat, s: State, family: Family)
    requires Invariant(ttl, s) && family in s.begun
    ensures Invariant(ttl, KillFamily(s, family))
  {
    var t := KillFamily(s, family);
    if family in s.families {
      assert FamilyOk(s, family);
      var v :| v in s.families[family].members && v in s.live && s.live[v].family == family;
      assert LiveOk(s, v);
    }
    forall u | u in t.live
      ensures LiveOk(t, u)
    {
      assert LiveOk(s, u);
    }
    forall f | f in t.families
      ensures FamilyOk(t, f)
    {
      assert FamilyOk(s, f);
      var u :| u in s.families[f].members && u in s.live && s.live[u].family == f;
      assert LiveOk(s, u);
    }
    forall u
      ensures SpentOk(ttl, t, u)
    {
      assert SpentOk(ttl, s, u);
    }
  }

  lemma SpendKeeps(ttl: nat, s: State, token: Token)
    requires Invariant(ttl, s) && ttl > 0 && token in s.live
    ensures Invariant(ttl, Spend(ttl, s, token))
    ensures s.live[token].family !in Spend(ttl, s, token).families && s.live[token].family !in s.killed
  {
    var t := Spend(ttl, s, token);
    assert LiveOk(s, token);
    forall u | u in t.live
      ensures LiveOk(t, u)
    {
      assert LiveOk(s, u);
    }
    forall f | f in t.families
      ensures FamilyOk(t, f)
    {
      assert FamilyOk(s, f);
      var u :| u in s.families[f].members && u in s.live && s.live[u].family == f;
      assert u in t.families[f].members && u in t.live;
    }
    forall u
      ensures SpentOk(ttl, t, u)
    {
      assert SpentOk(ttl, s, u);
    }
  }

  lemma TickKeeps(ttl: nat, s: State, to: int)
    requires Invariant(ttl, s) && s.now <= to
    ensures Invariant(ttl, Tick(s, to))
  {
    var t := Tick(s, to);
    forall u | u in t.live
      ensures LiveOk(t, u)
    {
      assert LiveOk(s, u);
    }
    forall f | f in t.families
      ensures FamilyOk(t, f)
    {
      assert FamilyOk(s, f);
      var u :| u in s.families[f].members && u in s.live && s.live[u].family == f;
      assert LiveOk(s, u);
      assert u in t.families[f].members && u in t.live;
    }
    forall u
      ensures SpentOk(ttl, t, u)
    {
      assert SpentOk(ttl, s, u);
    }
  }

  lemma CallKeeps(ttl: nat, s: State, c: Call)
    requires Invariant(ttl, s) && ttl > 0 && Enabled(s, c)
    ensures Invariant(ttl, Do(ttl, s, c))
  {
    FamiliesBegun(ttl, s);
    match c
    case SignInCall(memberships, shop, family, drawn) => IssueKeeps(ttl, s, memberships, shop, family, drawn);
    case SwitchShopCall(memberships, shop, family, drawn) => IssueKeeps(ttl, s, memberships, Some(shop), family, drawn);
    case RefreshCall(token, memberships, drawn) =>
      if token in s.live {
        SpendKeeps(ttl, s, token);
        IssueKeeps(ttl, Spend(ttl, s, token), memberships, Some(s.live[token].shop), s.live[token].family, drawn);
      } else if token in s.used {
        assert SpentOk(ttl, s, token);
        KillKeeps(ttl, s, s.used[token].family);
      }
    case RevokeCall(token) =>
      if token in s.live {
        assert LiveOk(s, token);
        KillKeeps(ttl, s, s.live[token].family);
      }
    case TickCall(to) => TickKeeps(ttl, s, to);
  }

  lemma FamiliesBegun(ttl: nat, s: State)
    requires Invariant(ttl, s)
    ensures s.families.Keys <= s.begun
  {
    forall f | f in s.families
      ensures f in s.begun
    {
      assert FamilyOk(s, f);
      var u :| u in s.families[f].members && u in s.live && s.live[u].family == f;
      assert LiveOk(s, u);
    }
  }

  lemma {:induction false} RunKeeps(ttl: nat, s: State, calls: seq<Call>, t: State)
    requires Invariant(ttl, s) && ttl > 0 && Runs(ttl, s, calls, t)
    ensures Invariant(ttl, t)
    decreases |calls|
  {
    hide Invariant, Do, Enabled;
    if calls != [] {
      CallKeeps(ttl, s, calls[0]);
      RunKeeps(ttl, Do(ttl, s, calls[0]), calls[1..], t);
    }
  }

  lemma Reachable(ttl: nat, calls: seq<Call>, s: State)
    requires ttl > 0 && Runs(ttl, EMPTY, calls, s)
    ensures Invariant(ttl, s)
  {
    RunKeeps(ttl, EMPTY, calls, s);
  }

  // ----- What holds of every run -----

  /** The call presents `token` and is let through: neither refused as expired nor as reused. */
  predicate Accepts(ttl: nat, s: State, c: Call, token: Token) {
    c.RefreshCall? && c.token == token && !Answer(ttl, s, c).1.Expired? && !Answer(ttl, s, c).1.ReuseDetected?
  }

  function Acceptances(ttl: nat, s: State, calls: seq<Call>, token: Token): nat
    decreases |calls|
  {
    if calls == [] then 0
    else (if Accepts(ttl, s, calls[0], token) then 1 else 0) + Acceptances(ttl, Do(ttl, s, calls[0]), calls[1..], token)
  }

  /** How many sessions of the family the calls hand out. */
  function SessionsOf(ttl: nat, s: State, calls: seq<Call>, family: Family): nat
    decreases |calls|
  {
    if calls == [] then 0
    else
      (if Answer(ttl, s, calls[0]).1.Issued? && Answer(ttl, s, calls[0]).1.family == family then 1 else 0)
      + SessionsOf(ttl, Do(ttl, s, calls[0]), calls[1..], family)
  }

  ghost predicate Dead(s: State, family: Family) {
    && family !in s.families
    && forall t :: t in s.live ==> s.live[t].family != family
  }

  lemma AcceptanceSpends(ttl: nat, s: State, c: Call, token: Token)
    requires Invariant(ttl, s)
    ensures token in s.spent ==> token in Do(ttl, s, c).spent && !Accepts(ttl, s, c, token)
    ensures Accepts(ttl, s, c, token) ==> token in s.live && token in Do(ttl, s, c).spent
  {
    if token in s.live {
      assert LiveOk(s, token);
    }
  }

  lemma {:induction false} AcceptedAtMostOnceFrom(ttl: nat, s: State, calls: seq<Call>, t: State, token: Token)
    requires Invariant(ttl, s) && ttl > 0 && Runs(ttl, s, calls, t)
    ensures Acceptances(ttl, s, calls, token) <= if token in s.spent then 0 else 1
    decreases |calls|
  {
    hide Invariant, Do, Enabled, Accepts;
    if calls != [] {
      CallKeeps(ttl, s, calls[0]);
      AcceptanceSpends(ttl, s, calls[0], token);
      AcceptedAtMostOnceFrom(ttl, Do(ttl, s, calls[0]), calls[1..], t, token);
    }
  }

  /** However a run mixes its calls, a refresh token is accepted at most once. */
  lemma AcceptedAtMostOnce(ttl: nat, calls: seq<Call>, t: State, token: Token)
    requires ttl > 0 && Runs(ttl, EMPTY, calls, t)
    ensures Acceptances(ttl, EMPTY, calls, token) <= 1
  {
    AcceptedAtMostOnceFrom(ttl, EMPTY, calls, t, token);
  }

  /** In every reachable state a live token is in its family's set, and is the only live one of its family. */
  lemma OneLiveToken(ttl: nat, calls: seq<Call>, s: State)
    requires ttl > 0 && Runs(ttl, EMPTY, calls, s)
    ensures forall t :: t in s.live ==> t in Members(s, s.live[t].family)
    ensures forall t, u :: t in s.live && u in s.live && s.live[t].family == s.live[u].family ==> t == u
    ensures forall f :: f in s.families ==>
        exists t :: s.families[f].members == {t} && t in s.live && s.live[t].family == f
  {
    Reachable(ttl, calls, s);
    forall t | t in s.live
      ensures Members(s, s.live[t].family) == {t}
    {
      assert LiveOk(s, t);
    }
    forall f | f in s.families
      ensures exists t :: s.families[f].members == {t} && t in s.live && s.live[t].family == f
    {
      assert FamilyOk(s, f);
      var t :| t in s.families[f].members && t in s.live && s.live[t].family == f;
      assert Members(s, f) == {t};
    }
  }

  lemma KilledIsDead(ttl: nat, s: State, family: Family)
    requires Invariant(ttl, s) && family in s.killed
    ensures Dead(s, family)
  {
    forall t | t in s.live
      ensures s.live[t].family != family
    {
      assert LiveOk(s, t);
    }
    assert family in s.families ==> FamilyOk(s, family);
  }

  lemma KilledStays(ttl: nat, s: State, c: Call, family: Family)
    requires Invariant(ttl, s) && Enabled(s, c) && family in s.killed
    ensures family in Do(ttl, s, c).killed
    ensures var a := Answer(ttl, s, c).1; a.Issued? ==> a.family != family
  {
    KilledIsDead(ttl, s, family);
  }

  lemma {:induction false} KilledForGood(ttl: nat, s: State, calls: seq<Call>, t: State, family: Family)
    requires Invariant(ttl, s) && ttl > 0 && Runs(ttl, s, calls, t) && family in s.killed
    ensures Dead(t, family) && SessionsOf(ttl, s, calls, family) == 0
    decreases |calls|
  {
    hide Invariant, Do, Enabled, Answer, Dead;
    if calls == [] {
      KilledIsDead(ttl, s, family);
    } else {
      CallKeeps(ttl, s, calls[0]);
      KilledStays(ttl, s, calls[0], family);
      KilledForGood(ttl, Do(ttl, s, calls[0]), calls[1..], t, family);
    }
  }

  /** Once reuse is detected, no token of the family is ever live again and no session of it is ever issued. */
  lemma ReuseEndsFamily(ttl: nat, before: seq<Call>, s: State, c: Call, after: seq<Call>, t: State)
    requires ttl > 0 && Runs(ttl, EMPTY, before, s) && Enabled(s, c) && Runs(ttl, Do(ttl, s, c), after, t)
    requires Answer(ttl, s, c).1.ReuseDetected?
    ensures var family := Answer(ttl, s, c).1.family;
            Dead(t, family) && SessionsOf(ttl, Do(ttl, s, c), after, family) == 0
  {
    Reachable(ttl, before, s);
    CallKeeps(ttl, s, c);
    KilledForGood(ttl, Do(ttl, s, c), after, t, Answer(ttl, s, c).1.family);
  }

  /** Signing out with a live token does the same to its family. */
  lemma SignOutEndsFamily(ttl: nat, before: seq<Call>, s: State, token: Token, after: seq<Call>, t: State)
    requires ttl > 0 && Runs(ttl, EMPTY, before, s) && token in s.live
    requires Runs(ttl, Revoke(s, token).0, after, t)
    ensures Dead(t, s.live[token].family) && SessionsOf(ttl, Revoke(s, token).0, after, s.live[token].family) == 0
  {
    Reachable(ttl, before, s);
    CallKeeps(ttl, s, RevokeCall(token));
    KilledForGood(ttl, Revoke(s, token).0, after, t, s.live[token].family);
  }

  /**
   What a presented token is answered with, in every reachable state: reuse is reported exactly
   within one lifetime of the token's spending, and anything else that is not live is merely expired.
   */
  lemma ReuseDetectedExactly(ttl: nat, calls: seq<Call>, s: State, token: Token, memberships: seq<Membership>,
      drawn: Token)
    requires ttl > 0 && Runs(ttl, EMPTY, calls, s)
    ensures var (after, outcome) := Refresh(ttl, s, token, memberships, drawn);
            && (outcome.ReuseDetected? <==> token in s.spent && s.now < s.spent[token].at + ttl)
            && (outcome.ReuseDetected? ==>
                  && outcome.family == s.spent[token].family && Dead(after, outcome.family)
                  && outcome.revoked == (if outcome.family in s.families then 1 else 0))
            && (outcome.Expired? <==> token !in s.live && (token in s.spent ==> s.spent[token].at + ttl <= s.now))
            && (outcome.Expired? ==> after == s)
  {
    Reachable(ttl, calls, s);
    assert SpentOk(ttl, s, token);
    if token in s.live {
      assert LiveOk(s, token);
    } else if token in s.used {
      var family := s.used[token].family;
      CallKeepsKilled(ttl, s, token, memberships, drawn);
      if family in s.families {
        OneLiveToken(ttl, calls, s);
      }
    }
  }

  lemma CallKeepsKilled(ttl: nat, s: State, token: Token, memberships: seq<Membership>, drawn: Token)
    requires Invariant(ttl, s) && ttl > 0 && token !in s.live && token in s.used
    ensures Dead(KillFamily(s, s.used[token].family), s.used[token].family)
  {
    assert SpentOk(ttl, s, token);
    KillKeeps(ttl, s, s.used[token].family);
    KilledIsDead(ttl, KillFamily(s, s.used[token].family), s.used[token].family);
  }

  /** The token is live in both states with one record, as its family's one member. */
  ghost predicate Undisturbed(s: State, t: State, token: Token) {
    && token in s.live && token in t.live && t.live[token] == s.live[token]
    && s.live[token].family in s.families && s.live[token].family in t.families
    && t.families[s.live[token].family] == s.families[s.live[token].family]
  }

  lemma IssueDisturbsNone(ttl: nat, s: State, memberships: seq<Membership>, shop: Option<Id>, family: Family,
      drawn: Token, other: Token)
    requires Undisturbed(s, s, other) && drawn != other && family != s.live[other].family
    ensures Undisturbed(s, IssueSession(ttl, s, memberships, shop, family, drawn).0, other)
  {
  }

  lemma SpendDisturbsNone(ttl: nat, s: State, token: Token, other: Token)
    requires Undisturbed(s, s, other) && token in s.live && s.live[token].family != s.live[other].family
    ensures Undisturbed(s, Spend(ttl, s, token), other)
  {
  }

  lemma KillDisturbsNone(ttl: nat, s: State, family: Family, other: Token)
    requires Invariant(ttl, s) && Undisturbed(s, s, other) && family != s.live[other].family
    ensures Undisturbed(s, KillFamily(s, family), other)
  {
    assert LiveOk(s, other);
    assert family in s.families ==> FamilyOk(s, family);
    assert forall u :: u in s.live ==> LiveOk(s, u);
  }

  /** A call never disturbs the live token of a family other than the one its own token belongs to. */
  lemma OthersUndisturbed(ttl: nat, calls: seq<Call>, s: State, c: Call, other: Token)
    requires ttl > 0 && Runs(ttl, EMPTY, calls, s) && Enabled(s, c) && !c.TickCall?
    requires other in s.live
    requires c.RefreshCall? || c.RevokeCall? ==>
               && (c.token in s.live ==> s.live[c.token].family != s.live[other].family)
               && (c.token in s.spent ==> s.spent[c.token].family != s.live[other].family)
    ensures Undisturbed(s, Do(ttl, s, c), other)
  {
    hide IssueSession, KillFamily, Spend, Undisturbed, Invariant;
    Reachable(ttl, calls, s);
    LiveIsUndisturbed(ttl, s, other);
    match c
    case SignInCall(memberships, shop, family, drawn) => IssueDisturbsNone(ttl, s, memberships, shop, family, drawn,
        other);
    case SwitchShopCall(memberships, shop, family, drawn) =>
      IssueDisturbsNone(ttl, s, memberships, Some(shop), family, drawn, other);
    case RefreshCall(token, memberships, drawn) =>
      if token in s.live {
        SpendDisturbsNone(ttl, s, token, other);
        var spent := Spend(ttl, s, token);
        IssueAfter(ttl, s, spent, memberships, Some(s.live[token].shop), s.live[token].family, drawn, other);
      } else if token in s.used {
        TombstoneTells(ttl, s, token);
        KillDisturbsNone(ttl, s, s.used[token].family, other);
      }
    case RevokeCall(token) =>
      if token in s.live {
        KillDisturbsNone(ttl, s, s.live[token].family, other);
      }
  }

  lemma LiveIsUndisturbed(ttl: nat, s: State, token: Token)
    requires Invariant(ttl, s) && token in s.live
    ensures Undisturbed(s, s, token) && token in s.issued && s.live[token].family in s.begun
  {
    assert LiveOk(s, token);
  }

  lemma TombstoneTells(ttl: nat, s: State, token: Token)
    requires Invariant(ttl, s) && token in s.used
    ensures token in s.spent && s.used[token].family == s.spent[token].family
  {
    assert SpentOk(ttl, s, token);
  }

  lemma IssueAfter(ttl: nat, s: State, t: State, memberships: seq<Membership>, shop: Option<Id>, family: Family,
      drawn: Token, other: Token)
    requires Undisturbed(s, t, other) && drawn != other && family != s.live[other].family
    ensures Undisturbed(s, IssueSession(ttl, t, memberships, shop, family, drawn).0, other)
  {
    IssueDisturbsNone(ttl, t, memberships, shop, family, drawn, other);
  }

  /** The membership is in the shop asked for, if one was. */
  predicate Fits(m: Membership, shop: Option<Id>) {
    shop.Some? ==> m.shop == shop.value
  }

  /** A shop is found exactly when some membership is in it, and then the first that is. */
  lemma {:induction false} FindShopExactly(memberships: seq<Membership>, shop: Id)
    ensures var found := FindShop(memberships, shop);
            && (found.Some? <==> exists m :: m in memberships && m.shop == shop)
            && (found.Some? ==> exists i | 0 <= i < |memberships| ::
                  && memberships[i] == found.value && found.value.shop == shop
                  && forall j | 0 <= j < i :: memberships[j].shop != shop)
  {
    if memberships != [] {
      var rest := memberships[1..];
      FindShopExactly(rest, shop);
      assert forall m :: m in memberships <==> m == memberships[0] || m in rest;
      if memberships[0].shop == shop {
        assert memberships[0] == FindShop(memberships, shop).value;
      } else if FindShop(memberships, shop).Some? {
        var i :| 0 <= i < |rest| && rest[i] == FindShop(rest, shop).value
            && forall j | 0 <= j < i :: rest[j].shop != shop;
        assert memberships[i + 1] == rest[i];
        assert forall j | 0 < j < i + 1 :: memberships[j] == rest[j - 1];
      }
    }
  }

  /**
   A session is only ever issued on a membership the caller has, and for a shop that was asked for only on one
   in it: on the first that fits, which is the first of all where no shop was asked for.
   */
  lemma IssuedOnMembership(ttl: nat, s: State, memberships: seq<Membership>, shop: Option<Id>, family: Family,
      drawn: Token)
    ensures var (after, outcome) := IssueSession(ttl, s, memberships, shop, family, drawn);
            && (outcome.Issued? <==> exists m :: m in memberships && Fits(m, shop))
            && (outcome.Issued? ==>
                  && (exists i | 0 <= i < |memberships| ::
                        && memberships[i] == Membership(outcome.staff, outcome.shop) && Fits(memberships[i], shop)
                        && forall j | 0 <= j < i :: !Fits(memberships[j], shop))
                  && outcome.token == drawn && outcome.family == family)
            && (!outcome.Issued? ==> outcome == Forbidden && after == s)
  {
    if shop.Some? {
      FindShopExactly(memberships, shop.value);
      if FindShop(memberships, shop.value).Some? {
        var i :| 0 <= i < |memberships| && memberships[i] == FindShop(memberships, shop.value).value
            && forall j | 0 <= j < i :: memberships[j].shop != shop.value;
        assert Fits(memberships[i], shop);
      }
    } else {
      assert memberships != [] ==> memberships[0] in memberships && Fits(memberships[0], shop);
    }
  }

  /**
   Switching shop begins a session of its own, for a whole lifetime, exactly for a member of the shop asked for, and
   leaves every other one as it is. Nobody's membership ends it as inactive, and another shop's as forbidden.
   */
  lemma SwitchedExactly(ttl: nat, calls: seq<Call>, s: State, memberships: seq<Membership>, shop: Id, family: Family,
      drawn: Token)
    requires ttl > 0 && Runs(ttl, EMPTY, calls, s) && Enabled(s, SwitchShopCall(memberships, shop, family, drawn))
    ensures var (after, outcome) := SwitchShop(ttl, s, memberships, shop, family, drawn);
            && (outcome.Issued? <==> exists m :: m in memberships && m.shop == shop)
            && (outcome.Inactive? <==> memberships == [])
            && (outcome.Issued? ==>
                  && outcome == Issued(drawn, outcome.staff, shop, family)
                  && Membership(outcome.staff, shop) in memberships
                  && after.live == s.live[drawn := Live(outcome.staff, shop, family, s.now + ttl)]
                  && Members(after, family) == {drawn} && after.used == s.used && after.killed == s.killed
                  && forall f :: f != family ==> Members(after, f) == Members(s, f))
            && (!outcome.Issued? ==> after == s && (outcome.Forbidden? || outcome.Inactive?))
  {
    hide FindShop, Runs;
    Reachable(ttl, calls, s);
    FamiliesBegun(ttl, s);
    if memberships != [] {
      IssuedOnMembership(ttl, s, memberships, Some(shop), family, drawn);
    }
  }

  /**
   A live token refreshes its session, in the same shop and family and for a whole lifetime, exactly when
   its owner is still a member there. Either way it is spent.
   */
  lemma RefreshContinues(ttl: nat, calls: seq<Call>, s: State, token: Token, memberships: seq<Membership>, drawn: Token)
    requires ttl > 0 && Runs(ttl, EMPTY, calls, s) && token in s.live && drawn !in s.issued
    ensures var (record, answer) := (s.live[token], Refresh(ttl, s, token, memberships, drawn));
            var (after, outcome) := answer;
            && token !in after.live && token in after.spent && after.spent[token] == Spending(record.family, s.now)
            && (outcome.Issued? <==> exists m :: m in memberships && m.shop == record.shop)
            && (outcome.Inactive? <==> memberships == [])
                && (outcome.Issued? || outcome.Forbidden? || outcome.Inactive?)
            && (outcome.Issued? ==>
                  && outcome.shop == record.shop && outcome.family == record.family
                  && drawn in after.live
                  && after.live[drawn] == Live(outcome.staff, record.shop, record.family, s.now + ttl)
                  && Members(after, record.family) == {drawn})
            && (!outcome.Issued? ==> Dead(after, record.family))
  {
    hide IssueSession, FindShop;
    Reachable(ttl, calls, s);
    var record, spent := s.live[token], Spend(ttl, s, token);
    SpendKeeps(ttl, s, token);
    SpentFamily(ttl, s, token);
    IssuedOnMembership(ttl, spent, memberships, Some(record.shop), record.family, drawn);
    IssuedIsLive(ttl, s, token, memberships, drawn);
  }

  lemma SpentFamily(ttl: nat, s: State, token: Token)
    requires Invariant(ttl, s) && token in s.live
    ensures Dead(Spend(ttl, s, token), s.live[token].family)
  {
    assert forall u :: u in s.live ==> LiveOk(s, u);
  }

  lemma IssuedIsLive(ttl: nat, s: State, token: Token, memberships: seq<Membership>, drawn: Token)
    requires Invariant(ttl, s) && token in s.live && drawn !in s.issued
    ensures var record, spent := s.live[token], Spend(ttl, s, token);
            var (after, outcome) := IssueSession(ttl, spent, memberships, Some(record.shop), record.family, drawn);
            && token !in after.live && after.spent == spent.spent
            && (outcome.Issued? ==>
                  && drawn in after.live
                  && after.live[drawn] == Live(outcome.staff, outcome.shop, record.family, s.now + ttl)
                  && Members(after, record.family) == {drawn})
  {
    SpentFamily(ttl, s, token);
    assert LiveOk(s, token);
  }

  lemma Stop(ttl: nat, s: State)
    ensures Runs(ttl, s, [], s) && Acceptances(ttl, s, [], 0) == 0
  {
  }

  lemma Next(ttl: nat, s: State, c: Call, t: State, rest: seq<Call>, end: State)
    requires Enabled(s, c) && Do(ttl, s, c) == t && Runs(ttl, t, rest, end)
    ensures Runs(ttl, s, [c] + rest, end)
    ensures Acceptances(ttl, s, [c] + rest, 0)
        == (if Accepts(ttl, s, c, 0) then 1 else 0) + Acceptances(ttl, t, rest, 0)
  {
    assert ([c] + rest)[1..] == rest;
  }

  /** Signed in at 0, refreshed at 0, and the clock at 1: token 0 is spent and token 1 is live. */
  ghost function OnceRefreshed(ttl: nat, m: Membership, now: int): State {
    State(now, map[1 := Live(m.staff, m.shop, 7, ttl)], map[0 := Tombstone(7, ttl)], map[7 := Lineage({1}, ttl)],
          {0, 1}, {7}, map[0 := Spending(7, 0)], {})
  }

  /** Refreshed again at 1. */
  ghost function TwiceRefreshed(ttl: nat, m: Membership): State {
    State(1, map[2 := Live(m.staff, m.shop, 7, 1 + ttl)], map[0 := Tombstone(7, ttl), 1 := Tombstone(7, 1 + ttl)],
          map[7 := Lineage({2}, 1 + ttl)], {0, 1, 2}, {7}, map[0 := Spending(7, 0), 1 := Spending(7, 1)], {})
  }

  ghost function Outlived(ttl: nat, m: Membership): State {
    TwiceRefreshed(ttl, m).(now := ttl, used := map[1 := Tombstone(7, 1 + ttl)])
  }

  ghost function SignedIn(ttl: nat, m: Membership): State {
    State(0, map[0 := Live(m.staff, m.shop, 7, ttl)], map[], map[7 := Lineage({0}, ttl)], {0}, {7}, map[], {})
  }

  lemma FirstCalls(ttl: nat, m: Membership)
    requires ttl >= 2
    ensures Do(ttl, EMPTY, SignInCall([m], None, 7, 0)) == SignedIn(ttl, m)
    ensures Do(ttl, SignedIn(ttl, m), RefreshCall(0, [m], 1)) == OnceRefreshed(ttl, m, 0)
  {
    var s, t := SignedIn(ttl, m), Spend(ttl, SignedIn(ttl, m), 0);
    assert Members(EMPTY, 7) + {0} == {0};
    assert t.families == map[] && t.live == map[] && t.spent == map[0 := Spending(7, 0)];
    assert Do(ttl, s, RefreshCall(0, [m], 1)) == IssueSession(ttl, t, [m], Some(m.shop), 7, 1).0;
    assert FindShop([m], m.shop) == Some(m);
    assert t.issued + {1} == {0, 1} && t.begun + {7} == {7} && Members(t, 7) + {1} == {1};
  }

  lemma SecondRefresh(ttl: nat, m: Membership)
    requires ttl >= 2
    ensures Do(ttl, OnceRefreshed(ttl, m, 1), RefreshCall(1, [m], 2)) == TwiceRefreshed(ttl, m)
  {
    hide Spend, IssueSession, TwiceRefreshed;
    var t := State(1, map[], map[0 := Tombstone(7, ttl), 1 := Tombstone(7, 1 + ttl)], map[], {0, 1}, {7},
                   map[0 := Spending(7, 0), 1 := Spending(7, 1)], {});
    SecondSpending(ttl, m, t);
    SecondIssue(ttl, m, t);
  }

  lemma SecondSpending(ttl: nat, m: Membership, t: State)
    requires t == State(1, map[], map[0 := Tombstone(7, ttl), 1 := Tombstone(7, 1 + ttl)], map[], {0, 1}, {7},
                        map[0 := Spending(7, 0), 1 := Spending(7, 1)], {})
    ensures Spend(ttl, OnceRefreshed(ttl, m, 1), 1) == t
  {
    var s := Spend(ttl, OnceRefreshed(ttl, m, 1), 1);
    assert s.families == map[] && s.live == map[] && s.spent == t.spent && s.used == t.used;
  }

  lemma SecondIssue(ttl: nat, m: Membership, t: State)
    requires t == State(1, map[], map[0 := Tombstone(7, ttl), 1 := Tombstone(7, 1 + ttl)], map[], {0, 1}, {7},
                        map[0 := Spending(7, 0), 1 := Spending(7, 1)], {})
    ensures IssueSession(ttl, t, [m], Some(m.shop), 7, 2).0 == TwiceRefreshed(ttl, m)
  {
    assert FindShop([m], m.shop) == Some(m);
    assert t.issued + {2} == {0, 1, 2} && t.begun + {7} == {7} && Members(t, 7) + {2} == {2};
  }

  lemma TickDropsOne(s: State, to: int, gone: Token)
    requires forall t :: t in s.live ==> s.live[t].expires > to
    requires forall f :: f in s.families ==> s.families[f].expires > to
    requires forall t :: t in s.used ==> (s.used[t].expires > to <==> t != gone)
    ensures Tick(s, to) == s.(now := to, used := s.used - {gone})
  {
    assert Tick(s, to).live == s.live && Tick(s, to).families == s.families;
    assert Tick(s, to).used == s.used - {gone};
  }

  lemma Ticks(ttl: nat, m: Membership)
    requires ttl >= 2
    ensures Do(ttl, OnceRefreshed(ttl, m, 0), TickCall(1)) == OnceRefreshed(ttl, m, 1)
    ensures Do(ttl, TwiceRefreshed(ttl, m), TickCall(ttl)) == Outlived(ttl, m)
  {
    hide Tick;
    TickDropsOne(OnceRefreshed(ttl, m, 0), 1, 3);
    assert OnceRefreshed(ttl, m, 0).used - {3} == OnceRefreshed(ttl, m, 0).used;
    TickDropsOne(TwiceRefreshed(ttl, m), ttl, 0);
    assert TwiceRefreshed(ttl, m).used - {0} == Outlived(ttl, m).used;
  }

  lemma LaterCalls(ttl: nat, m: Membership)
    requires ttl >= 2
    ensures var rest := [TickCall(1)] + ([RefreshCall(1, [m], 2)] + ([TickCall(ttl)] + []));
            && Runs(ttl, OnceRefreshed(ttl, m, 0), rest, Outlived(ttl, m))
            && Acceptances(ttl, OnceRefreshed(ttl, m, 0), rest, 0) == 0
  {
    hide Runs, Acceptances, Do, Outlived;
    Ticks(ttl, m);
    Stop(ttl, Outlived(ttl, m));
    Next(ttl, TwiceRefreshed(ttl, m), TickCall(ttl), Outlived(ttl, m), [], Outlived(ttl, m));
    SecondRefresh(ttl, m);
    Next(ttl, OnceRefreshed(ttl, m, 1), RefreshCall(1, [m], 2), TwiceRefreshed(ttl, m),
         [TickCall(ttl)] + [], Outlived(ttl, m));
    Next(ttl, OnceRefreshed(ttl, m, 0), TickCall(1), OnceRefreshed(ttl, m, 1),
         [RefreshCall(1, [m], 2)] + ([TickCall(ttl)] + []), Outlived(ttl, m));
  }

  /**
   The tombstone lasts one lifetime from the spending, and not for as long as its family lives:
   a family refreshed once more outlives it, and the reuse then passes for an expiry.
   */
  lemma TombstoneOutlived(ttl: nat, m: Membership)
    requires ttl >= 2
    ensures exists calls, s ::
              && Runs(ttl, EMPTY, calls, s)
              && Acceptances(ttl, EMPTY, calls, 0) == 1
              && 2 in s.live && s.live[2].family == 7
              && 0 in s.spent && s.spent[0].family == 7
              && Refresh(ttl, s, 0, [m], 3) == (s, Expired)
  {
    hide Runs, Acceptances;
    LaterCalls(ttl, m);
    var rest := [TickCall(1)] + ([RefreshCall(1, [m], 2)] + ([TickCall(ttl)] + []));
    FirstCalls(ttl, m);
    var refresh, signIn := RefreshCall(0, [m], 1), SignInCall([m], None, 7, 0);
    Next(ttl, SignedIn(ttl, m), refresh, OnceRefreshed(ttl, m, 0), rest, Outlived(ttl, m));
    Next(ttl, EMPTY, signIn, SignedIn(ttl, m), [refresh] + rest, Outlived(ttl, m));
    assert Runs(ttl, EMPTY, [signIn] + ([refresh] + rest), Outlived(ttl, m));
  }
}
