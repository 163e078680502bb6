/** Access grants of artifacts: one-time hand-offs for internal ones, password unlocks for external ones, and the
    content grants either can yield. */
module Grants {
  import opened Wrappers

  type Id = string

  /** Passwords and grant values are drawn fresh; what is stored is a hash of them, here the number itself. */
  type Secret = nat

  datatype Visibility = Internal | External | Public

  datatype Artifact = Artifact(owner: string, visibility: Visibility, ready: bool, password: Option<Secret>, expires: Option<real>)

  datatype Credential = Credential(user: string, token: string, digest: string)

  datatype OneTime = OneTime(aid: Id, expires: real, credential: Credential, used: bool)

  datatype Binding = ByUser(credential: Credential) | ByPassword(password: Secret)

  datatype Content = Content(aid: Id, expires: real, created: real, binding: Binding)

  datatype Change = Keep | To(visibility: Visibility)

  datatype Reply = Granted(value: Secret, expires: real) | Password(value: Secret) | Done | Refused | Failed

  predicate Expired(a: Artifact, now: real) { a.expires.Some? && now >= a.expires.value }

  class Store {
    const cap: nat
    const contentTtl: real
    const oneTimeTtl: real

    var artifacts: map<Id, Artifact>
    var oneTime: map<Secret, OneTime>
    var content: map<Secret, Content>
    /** The source of fresh secrets. */
    var next: Secret
    /** When set, the database does not fail. */
    var calm: bool

    /** History: how many content grants each one-time grant has yielded. */
    ghost var yielded: map<Secret, nat>

    constructor (cap: nat, contentTtl: real, oneTimeTtl: real)
      ensures Inv() && this.cap == cap && artifacts == map[] && Capped() && HandOffsInternal()
    {
      this.cap, this.contentTtl, this.oneTimeTtl := cap, contentTtl, oneTimeTtl;
      artifacts, oneTime, content, next, calm := map[], map[], map[], 0, false;
      yielded := map[];
    }

    // ---------------------------------------------------------- what holds

    /** A password is stored exactly for external artifacts, and was drawn. */
    ghost predicate PasswordsOk() reads `artifacts, `next {
      forall aid | aid in artifacts :: PasswordOk(artifacts[aid])
    }

    predicate PasswordOk(a: Artifact) reads `next {
      (a.password.Some? <==> a.visibility == External) && (a.password.Some? ==> a.password.value < next)
    }

    /** A content grant is bound to the current password of an external artifact, or to a user of an internal one. */
    predicate ContentOk(g: Secret) reads `artifacts, `content
      requires g in content
    {
      content[g].aid in artifacts &&
      var a := artifacts[content[g].aid];
      if content[g].binding.ByUser? then a.visibility == Internal
      else a.visibility == External && a.password == Some(content[g].binding.password)
    }

    ghost function OfArtifact(aid: Id): set<Secret> reads `content { Of(content, aid) }

    /** No artifact has more content grants than the cap. */
    ghost predicate Capped() reads `content { CappedBy(content, cap) }

    static ghost predicate CappedBy(content: map<Secret, Content>, cap: nat) {
      forall aid: Id {:trigger Of(content, aid)} :: |Of(content, aid)| <= cap
    }

    /** Every hand-off that is kept is of an internal artifact. */
    predicate HandOffsInternal() reads `artifacts, `oneTime {
      forall g | g in oneTime :: oneTime[g].aid in artifacts && artifacts[oneTime[g].aid].visibility == Internal
    }

    /** With fewer grants every artifact has at most as many. */
    static lemma FewerStayCapped(before: map<Secret, Content>, after: map<Secret, Content>, cap: nat)
      requires forall g | g in after :: g in before && after[g] == before[g]
      ensures CappedBy(before, cap) ==> CappedBy(after, cap)
    {
      forall aid: Id ensures |Of(after, aid)| <= |Of(before, aid)| { SubsetIsSmaller(Of(after, aid), Of(before, aid)); }
    }

    /** A one-time grant has yielded nothing while it can still be used, and never more than one content grant. */
    ghost predicate YieldOk(g: Secret) reads `oneTime, `yielded {
      g in yielded ==> yielded[g] <= 1 && (g in oneTime && !oneTime[g].used ==> yielded[g] == 0)
    }

    ghost predicate Inv() reads this {
      && PasswordsOk()
      && (forall g {:trigger ContentOk(g)} | g in content :: ContentOk(g))
      && (forall g {:trigger YieldOk(g)} :: YieldOk(g))
      && (forall g | g in oneTime || g in content || g in yielded :: g < next)
      && (forall g | g in oneTime :: g in yielded)
    }

    /** In every reachable store: a password is there exactly for an external artifact; a content grant is bound to the
        current password of an external artifact or to a user of an internal one; a one-time grant has yielded at most
        one. */
    lemma GrantsAreBound(aid: Id, g: Secret)
      requires Inv()
      ensures aid in artifacts ==> (artifacts[aid].password.Some? <==> artifacts[aid].visibility == External)
      ensures g in content ==> content[g].aid in artifacts
      ensures g in content && content[g].binding.ByPassword? ==>
                artifacts[content[g].aid].password == Some(content[g].binding.password)
      ensures g in content && content[g].binding.ByUser? ==> artifacts[content[g].aid].visibility == Internal
      ensures g in yielded ==> yielded[g] <= 1
    {
      assert g in content ==> ContentOk(g);
      assert YieldOk(g);
    }

    /** One statement of the database goes through. */
    method Try() returns (ok: bool)
      ensures calm ==> ok
    {
      ok := *;
      if calm { ok := true; }
    }

    method Fresh() returns (s: Secret)
      requires Inv()
      modifies `next
      ensures Inv() && s == old(next) && next == s + 1 && s !in oneTime && s !in content && s !in yielded
    {
      s := next;
      next := next + 1;
      forall g ensures YieldOk(g) { assert old(YieldOk(g)); }
      forall g | g in content ensures ContentOk(g) { assert old(ContentOk(g)); }
    }

    // ---------------------------------------------------------- artifacts

    /** All grants of the artifact are gone. */
    predicate Ungranted(aid: Id) reads `oneTime, `content {
      (forall g | g in oneTime :: oneTime[g].aid != aid) && (forall g | g in content :: content[g].aid != aid)
    }

    /** Every grant of another artifact is there as it was. */
    twostate predicate OthersKept(aid: Id) reads `oneTime, `content {
      && (forall g | g in old(oneTime) && old(oneTime)[g].aid != aid :: g in oneTime && oneTime[g] == old(oneTime)[g])
      && (forall g | g in old(content) && old(content)[g].aid != aid :: g in content && content[g] == old(content)[g])
    }

    /** The database after one transaction on an artifact that also takes away all its grants. */
    method Replace(aid: Id, a: Option<Artifact>) returns (ok: bool)
      requires Inv() && (a.Some? ==> PasswordOk(a.value))
      modifies `artifacts, `oneTime, `content
      ensures Inv() && (calm ==> ok)
      ensures ok ==> artifacts == (if a.Some? then old(artifacts)[aid := a.value] else old(artifacts) - {aid}) && Ungranted(aid)
      ensures OthersKept(aid)
      ensures !ok ==> artifacts == old(artifacts) && oneTime == old(oneTime) && content == old(content)
      ensures forall g | g in oneTime :: g in old(oneTime) && oneTime[g] == old(oneTime)[g]
      ensures forall g | g in content :: g in old(content) && content[g] == old(content)[g]
      ensures old(Capped()) ==> Capped()
    {
      ok := Try();
      if !ok { return; }
      artifacts := if a.Some? then artifacts[aid := a.value] else artifacts - {aid};
      oneTime := map g | g in oneTime && oneTime[g].aid != aid :: oneTime[g];
      content := map g | g in content && content[g].aid != aid :: content[g];
      forall g ensures YieldOk(g) { assert old(YieldOk(g)); }
      forall g | g in content ensures ContentOk(g) { assert old(ContentOk(g)); }
      FewerStayCapped(old(content), content, cap);
    }

    /** A new artifact; an external one gets a password. */
    method Create(aid: Id, owner: string, visibility: Visibility, expires: Option<real>) returns (r: Reply)
      requires Inv() && aid !in artifacts
      modifies `artifacts, `oneTime, `content, `next
      ensures Inv() && (calm ==> r.Password? || r.Done?)
      ensures r.Failed? || (if visibility == External then r.Password? else r.Done?)
      ensures r.Failed? ==> artifacts == old(artifacts)
      ensures !r.Failed? ==>
                var password := if r.Password? then Some(r.value) else None;
                artifacts == old(artifacts)[aid := Artifact(owner, visibility, false, password, expires)]
      ensures old(Capped()) ==> Capped()
      ensures old(HandOffsInternal()) ==> HandOffsInternal()
      ensures !r.Failed? ==> Ungranted(aid)
    {
      var password := None;
      if visibility == External {
        var secret := Fresh();
        password := Some(secret);
      }
      var ok := Replace(aid, Some(Artifact(owner, visibility, false, password, expires)));
      if !ok { return Failed; }
      return if password.Some? then Password(password.value) else Done;
    }

    /** A change of visibility gives a new password or none, and takes away every grant; without one, grants stay. Until
        an artifact is ready only its owner can change it. */
    method Patch(user: string, aid: Id, change: Change, expires: Option<Option<real>>) returns (r: Reply)
      requires Inv()
      modifies `artifacts, `oneTime, `content, `next
      ensures Inv()
      ensures OthersKept(aid) && artifacts - {aid} == old(artifacts) - {aid} && (calm ==> !r.Failed?)
      ensures r.Refused? <==> aid !in old(artifacts) || (!old(artifacts)[aid].ready && old(artifacts)[aid].owner != user)
      ensures r.Refused? || r.Failed? ==>
                artifacts == old(artifacts) && oneTime == old(oneTime) && content == old(content)
      ensures r.Done? || r.Password? ==>
                && aid in old(artifacts) && aid in artifacts && artifacts[aid].ready == old(artifacts)[aid].ready
                && artifacts[aid].owner == old(artifacts)[aid].owner
                && artifacts[aid].visibility == (if change.To? then change.visibility else old(artifacts)[aid].visibility)
                && artifacts[aid].expires == (if expires.Some? then expires.value else old(artifacts)[aid].expires)
      ensures (r.Done? || r.Password?) && artifacts[aid].visibility != old(artifacts)[aid].visibility ==> Ungranted(aid)
      ensures r.Password? <==> aid in artifacts && artifacts[aid].visibility == External && old(artifacts)[aid].visibility != External
      ensures r.Password? ==> artifacts[aid].password == Some(r.value) && r.value >= old(next)
      ensures r.Done? && artifacts[aid].visibility == old(artifacts)[aid].visibility ==>
                oneTime == old(oneTime) && content == old(content) && artifacts[aid].password == old(artifacts)[aid].password
      ensures r.Done? || r.Password? || r.Refused? || r.Failed?
      ensures old(Capped()) ==> Capped()
      ensures old(HandOffsInternal()) ==> HandOffsInternal()
    {
      hide CappedBy, ContentOk, YieldOk, Ungranted;
      if aid !in artifacts { return Refused; }
      var a := artifacts[aid];
      if !a.ready && a.owner != user { return Refused; }
      var kept := if expires.Some? then a.(expires := expires.value) else a;
      if change.To? && change.visibility != a.visibility {
        var password := None;
        if change.visibility == External {
          var secret := Fresh();
          password := Some(secret);
        }
        var ok := Replace(aid, Some(kept.(visibility := change.visibility, password := password)));
        if !ok { return Failed; }
        return if password.Some? then Password(password.value) else Done;
      }
      var ok := Try();
      if !ok { return Failed; }
      Update(aid, kept);
      return Done;
    }

    /** Readiness and expiry do not matter to the grants there are. */
    method Update(aid: Id, a: Artifact)
      requires Inv() && aid in artifacts
      requires a.visibility == artifacts[aid].visibility && a.password == artifacts[aid].password
      modifies `artifacts
      ensures Inv() && artifacts == old(artifacts)[aid := a]
    {
      artifacts := artifacts[aid := a];
      forall g | g in content ensures ContentOk(g) { assert old(ContentOk(g)); }
      forall g ensures YieldOk(g) { assert old(YieldOk(g)); }
    }

    /** A new password for an external artifact; every grant made under the old one is gone. */
    method Rotate(aid: Id) returns (r: Reply)
      requires Inv()
      modifies `artifacts, `oneTime, `content, `next
      ensures Inv() && (r.Password? || r.Refused? || r.Failed?)
      ensures r.Refused? <==> aid !in old(artifacts) || old(artifacts)[aid].visibility != External
      ensures r.Password? ==>
                && aid in old(artifacts) && artifacts == old(artifacts)[aid := old(artifacts)[aid].(password := Some(r.value))]
                && Ungranted(aid)
      ensures OthersKept(aid)
      ensures r.Password? ==> old(artifacts)[aid].password != Some(r.value)
      ensures !r.Password? ==> artifacts == old(artifacts) && oneTime == old(oneTime) && content == old(content)
      ensures calm ==> r.Password? || r.Refused?
      ensures old(Capped()) ==> Capped()
      ensures old(HandOffsInternal()) ==> HandOffsInternal()
    {
      var secret := Fresh();
      if aid !in artifacts { return Refused; }
      if artifacts[aid].visibility != External { return Refused; }
      var ok := Replace(aid, Some(artifacts[aid].(password := Some(secret))));
      return if ok then Password(secret) else Failed;
    }

    method Delete(aid: Id) returns (r: Reply)
      requires Inv()
      modifies `artifacts, `oneTime, `content
      ensures Inv() && OthersKept(aid) && (r.Done? || r.Refused? || r.Failed?) && (calm ==> !r.Failed?)
      ensures r.Refused? <==> aid !in old(artifacts)
      ensures r.Done? ==> artifacts == old(artifacts) - {aid} && Ungranted(aid)
      ensures !r.Done? ==> artifacts == old(artifacts) && oneTime == old(oneTime) && content == old(content)
      ensures old(Capped()) ==> Capped()
      ensures old(HandOffsInternal()) ==> HandOffsInternal()
    {
      if aid !in artifacts { return Refused; }
      var ok := Replace(aid, None);
      return if ok then Done else Failed;
    }

    // ---------------------------------------------------------- one-time grants

    /** From one state to a later one: a hand-off once made is known for good, what it has yielded stays counted, and
        a use is never unmarked. */
    twostate predicate UsesStay() reads `oneTime, `yielded {
      && (forall h | h in old(yielded) :: h in yielded && old(yielded)[h] <= yielded[h])
      && (forall h | h in old(oneTime) && h in oneTime && old(oneTime)[h].used :: oneTime[h].used)
    }

    /** A hand-off for a user; whether the artifact is one that can be handed off is asked when it is redeemed. */
    method CreateOneTime(aid: Id, credential: Credential, now: real) returns (r: Reply)
      requires Inv()
      modifies `oneTime, `next, `yielded
      ensures Inv() && (r.Refused? <==> aid !in artifacts) && (calm ==> r.Refused? || r.Granted?)
      ensures r.Granted? ==> r.value !in old(oneTime) && r.value !in old(yielded)
      ensures r.Granted? ==> oneTime == old(oneTime)[r.value := OneTime(aid, now + oneTimeTtl, credential, false)]
      ensures r.Granted? ==> yielded == old(yielded)[r.value := 0] && r.expires == now + oneTimeTtl
      ensures !r.Granted? ==> oneTime == old(oneTime) && yielded == old(yielded)
      ensures UsesStay()
      ensures r.Granted? ==> (HandOffsInternal() <==> old(HandOffsInternal()) && artifacts[aid].visibility == Internal)
    {
      var g := Fresh();
      if aid !in artifacts { return Refused; }
      var ok := Try();
      if !ok { return Failed; }
      oneTime := oneTime[g := OneTime(aid, now + oneTimeTtl, credential, false)];
      yielded := yielded[g := 0];
      forall h ensures YieldOk(h) { assert old(YieldOk(h)); }
      forall h | h in content ensures ContentOk(h) { assert old(ContentOk(h)); }
      assert oneTime[g].aid == aid && forall h | h in old(oneTime) :: h in oneTime && oneTime[h] == old(oneTime)[h];
      return Granted(g, now + oneTimeTtl);
    }

    /** The one-time grant is looked up and marked as used; an expired one is removed. */
    method Consume(g: Secret, aid: Id, now: real) returns (r: Reply, credential: Credential)
      requires Inv()
      modifies `oneTime
      ensures Inv() && (r.Done? || r.Refused? || r.Failed?)
      ensures r.Done? ==> Usable(g, aid, now, old(oneTime)) && credential == old(oneTime)[g].credential
      ensures r.Done? ==> oneTime == old(oneTime)[g := old(oneTime)[g].(used := true)]
      ensures r.Refused? <==> !Usable(g, aid, now, old(oneTime))
      ensures forall h | h in oneTime ::
                h in old(oneTime) && oneTime[h].aid == old(oneTime)[h].aid && (old(oneTime)[h].used ==> oneTime[h].used)
      ensures oneTime - {g} == old(oneTime) - {g}
      ensures calm ==> !r.Failed?
    {
      credential := Credential("", "", "");
      if g !in oneTime || oneTime[g].aid != aid || oneTime[g].used { return Refused, credential; }
      var ok := Try();
      if now >= oneTime[g].expires {
        if ok {
          oneTime := oneTime - {g};
          OneTimeChanged(old(oneTime));
        }
        return Refused, credential;
      }
      if !ok { return Failed, credential; }
      credential := oneTime[g].credential;
      oneTime := oneTime[g := oneTime[g].(used := true)];
      OneTimeChanged(old(oneTime));
      return Done, credential;
    }

    predicate Usable(g: Secret, aid: Id, now: real, table: map<Secret, OneTime>) {
      g in table && table[g].aid == aid && !table[g].used && now < table[g].expires
    }

    /** Using up or removing one-time grants keeps the invariant. */
    twostate lemma OneTimeChanged(was: map<Secret, OneTime>)
      requires old(Inv()) && was == old(oneTime)
      requires artifacts == old(artifacts) && content == old(content) && yielded == old(yielded) && next == old(next)
      requires forall h | h in oneTime :: h in was && (was[h].used ==> oneTime[h].used)
      ensures Inv()
    {
      forall h ensures YieldOk(h) { assert old(YieldOk(h)); }
      forall h | h in content ensures ContentOk(h) { assert old(ContentOk(h)); }
    }

    // ---------------------------------------------------------- content grants

    /** The bindings an artifact can have a content grant with now. */
    predicate Bindable(aid: Id, b: Binding) reads `artifacts {
      aid in artifacts &&
      if b.ByUser? then artifacts[aid].visibility == Internal
      else artifacts[aid].visibility == External && artifacts[aid].password == Some(b.password)
    }

    /** A content grant lasts its time, or as long as the artifact if that ends sooner. */
    function Ends(a: Artifact, now: real): (e: real)
      ensures e <= now + contentTtl && (a.expires.Some? ==> e <= a.expires.value)
      ensures e == now + contentTtl || a.expires == Some(e)
    {
      if a.expires.Some? && a.expires.value < now + contentTtl then a.expires.value else now + contentTtl
    }

    /** Every grant the artifact had was made earlier. */
    ghost predicate AllEarlier(aid: Id, now: real) reads `content {
      forall g | g in content && content[g].aid == aid :: content[g].created < now
    }

    /** A new content grant, and then the trim of the artifact's oldest ones down to the cap. */
    method Issue(aid: Id, b: Binding, now: real) returns (r: Reply)
      requires Inv() && Bindable(aid, b)
      modifies `content, `next
      ensures Inv() && (r.Granted? || r.Failed?) && (calm ==> r.Granted?)
      ensures forall g | g in content :: g == old(next) || (g in old(content) && content[g] == old(content)[g])
      ensures old(next) in content ==> content[old(next)] == Content(aid, Ends(artifacts[aid], now), now, b)
      ensures r.Granted? ==> |OfArtifact(aid)| <= cap && r.value == old(next) && r.expires == Ends(artifacts[aid], now)
      ensures r.Granted? ==> r.value !in old(content)
      ensures r.Granted? && cap > 0 && old(AllEarlier(aid, now)) ==> r.value in content
      ensures forall g | g in old(content) && old(content)[g].aid != aid :: g in content
      ensures r.Granted? && |old(OfArtifact(aid))| < cap ==>
                content == old(content)[r.value := Content(aid, Ends(artifacts[aid], now), now, b)]
      ensures old(Capped()) ==> (Capped() <==> r.Granted? || content == old(content))
      ensures old(Capped()) && |old(OfArtifact(aid))| < cap ==> Capped()
      ensures r.Failed? ==> (|OfArtifact(aid)| <= cap <==> |old(OfArtifact(aid))| <= cap && content == old(content))
    {
      ghost var earlier := AllEarlier(aid, now);
      var value := Fresh();
      var ok := Try();
      if !ok { return Failed; }
      var c := Content(aid, Ends(artifacts[aid], now), now, b);
      Insert(value, c);
      ghost var inserted := content;
      OneMore(old(content), aid, value, c);
      ok := Trim(aid);
      TrimmedOrOver(old(content), inserted, content, aid, value, cap);
      if ok && cap > 0 && earlier { YoungestStays(inserted, content, aid, value); }
      return if ok then Granted(value, Ends(artifacts[aid], now)) else Failed;
    }

    static lemma OneMore(before: map<Secret, Content>, aid: Id, value: Secret, c: Content)
      requires value !in before && c.aid == aid
      ensures Of(before[value := c], aid) == Of(before, aid) + {value}
      ensures |Of(before[value := c], aid)| == |Of(before, aid)| + 1
    {
      assert Of(before[value := c], aid) == Of(before, aid) + {value};
    }

    /** One grant more, and then a trim of its artifact: within the cap exactly if that one is. */
    static lemma TrimmedOrOver(before: map<Secret, Content>, inserted: map<Secret, Content>, after: map<Secret, Content>,
                               aid: Id, value: Secret, cap: nat)
      requires value !in before && value in inserted && inserted[value].aid == aid && inserted - {value} == before
      requires OldestGone(inserted, after, aid)
      ensures CappedBy(before, cap) ==> (CappedBy(after, cap) <==> |Of(after, aid)| <= cap)
    {
      forall other: Id | CappedBy(before, cap) && other != aid ensures |Of(after, other)| <= cap {
        assert |Of(before, other)| <= cap;
        forall g | g in Of(after, other) ensures g in Of(before, other) { assert g in inserted && g in inserted - {value}; }
        SubsetIsSmaller(Of(after, other), Of(before, other));
      }
    }

    /** Until the trim is done the artifact may be one grant over. */
    method Insert(value: Secret, c: Content)
      requires Inv() && Bindable(c.aid, c.binding) && value < next && value !in content
      modifies `content
      ensures Inv() && content == old(content)[value := c]
    {
      content := content[value := c];
      forall g ensures YieldOk(g) { assert old(YieldOk(g)); }
      forall g | g in content ensures ContentOk(g) { if g != value { assert old(ContentOk(g)); } }
    }

    /** An oldest grant of the artifact. */
    method Oldest(aid: Id) returns (g: Secret)
      requires OfArtifact(aid) != {}
      ensures g in OfArtifact(aid) && forall h | h in OfArtifact(aid) :: content[g].created <= content[h].created
    {
      var rest := set h | h in content && content[h].aid == aid;
      g :| g in rest;
      rest := rest - {g};
      while rest != {}
        invariant rest <= OfArtifact(aid) && g in OfArtifact(aid)
        invariant forall h | h in OfArtifact(aid) && h !in rest :: content[g].created <= content[h].created
        decreases |rest|
      {
        var h :| h in rest;
        if content[h].created < content[g].created { g := h; }
        rest := rest - {h};
      }
    }

    /** Taking a content grant away. */
    method Remove(g: Secret)
      requires Inv() && g in content
      modifies `content
      ensures Inv() && content == old(content) - {g}
      ensures old(Capped()) ==> Capped()
    {
      content := content - {g};
      forall h ensures YieldOk(h) { assert old(YieldOk(h)); }
      forall h | h in content ensures ContentOk(h) { assert old(ContentOk(h)); }
      FewerStayCapped(old(content), content, cap);
    }

    static ghost function Of(content: map<Secret, Content>, aid: Id): set<Secret> {
      set g | g in content && content[g].aid == aid
    }

    /** What is missing afterwards is of the artifact and no younger than what the artifact has left. */
    static ghost predicate OldestGone(before: map<Secret, Content>, after: map<Secret, Content>, aid: Id) {
      && (forall g | g in after :: g in before && after[g] == before[g])
      && (forall g | g in before && g !in after ::
            before[g].aid == aid && forall h | h in Of(after, aid) :: before[g].created <= after[h].created)
    }

    /** A grant younger than all others of its artifact outlives a trim. */
    static lemma YoungestStays(before: map<Secret, Content>, after: map<Secret, Content>, aid: Id, value: Secret)
      requires OldestGone(before, after, aid) && value in before && before[value].aid == aid
      requires forall g | g in before && before[g].aid == aid && g != value :: before[g].created < before[value].created
      requires Of(after, aid) != {} || after == before
      ensures value in after
    {
      if after != before {
        var h :| h in Of(after, aid);
        assert h in before && after[h] == before[h];
      }
    }

    /** Removes the oldest grants of the artifact until the cap is kept; a statement that fails leaves it over. */
    method Trim(aid: Id) returns (ok: bool)
      requires Inv()
      modifies `content
      ensures Inv() && (calm ==> ok) && OldestGone(old(content), content, aid)
      ensures ok <==> |OfArtifact(aid)| <= cap
      ensures ok ==> (|old(OfArtifact(aid))| >= cap ==> |OfArtifact(aid)| == cap)
      ensures |old(OfArtifact(aid))| <= cap ==> content == old(content)
      ensures old(Capped()) ==> Capped()
    {
      ok := true;
      var mine := set h | h in content && content[h].aid == aid;
      while |mine| > cap
        invariant Inv() && ok && OldestGone(old(content), content, aid) && mine == OfArtifact(aid)
        invariant |old(OfArtifact(aid))| >= cap ==> |mine| >= cap
        invariant |old(OfArtifact(aid))| <= cap ==> content == old(content)
        decreases |mine|
      {
        ok := Try();
        if !ok { return; }
        var g := Oldest(aid);
        Remove(g);
        mine := mine - {g};
      }
    }

    // ---------------------------------------------------------- redeeming and unlocking

    /** A user's hand-off becomes a content grant, once: it is consumed first, whatever comes of it. `live` says whether
        the credential behind it is still provisioned. */
    method Redeem(aid: Id, g: Secret, live: bool, now: real) returns (r: Reply)
      requires Inv()
      modifies `oneTime, `content, `next, `yielded
      ensures Inv() && (r.Granted? || r.Refused? || r.Failed?)
      ensures r.Granted? ==>
                && Usable(g, aid, now, old(oneTime)) && live && Handable(aid, now)
                && artifacts[aid].visibility == Internal && (artifacts[aid].expires.Some? ==> now < artifacts[aid].expires.value)
                && g in oneTime && oneTime[g].used && g in yielded && yielded[g] == 1
                && (artifacts[aid].expires.Some? ==> r.expires <= artifacts[aid].expires.value)
      ensures !Usable(g, aid, now, old(oneTime)) || !Handable(aid, now) ==> r.Refused? && content == old(content)
      ensures !Handable(aid, now) ==> oneTime == old(oneTime)
      ensures calm && Usable(g, aid, now, old(oneTime)) && Handable(aid, now) && live && old(oneTime)[g].credential.user != "" ==>
                r.Granted?
      ensures forall h | h in content :: h in old(content) || content[h].binding == ByUser(old(oneTime)[g].credential)
      ensures old(HandOffsInternal()) ==> HandOffsInternal()
      ensures old(Capped()) ==> (Capped() <==> r.Granted? || content == old(content))
      ensures old(Capped()) && |old(OfArtifact(aid))| < cap ==> Capped()
      ensures UsesStay() && oneTime - {g} == old(oneTime) - {g} && yielded - {g} == old(yielded) - {g}
      ensures r.Granted? ==> g in old(yielded) && old(yielded)[g] == 0
      ensures r.Granted? ==>
                && g in old(oneTime) && old(oneTime)[g].aid == aid && !old(oneTime)[g].used && now < old(oneTime)[g].expires
                && aid in artifacts && artifacts[aid].ready && old(oneTime)[g].credential.user != ""
      ensures && calm && g in old(oneTime) && old(oneTime)[g].aid == aid && !old(oneTime)[g].used && now < old(oneTime)[g].expires
              && aid in artifacts && artifacts[aid].visibility == Internal && artifacts[aid].ready
              && (artifacts[aid].expires.Some? ==> now < artifacts[aid].expires.value)
              && live && old(oneTime)[g].credential.user != ""
              ==> r.Granted?
      ensures r.Granted? ==> r.expires == Ends(artifacts[aid], now)
      ensures forall h | h in content && h !in old(content) ::
                content[h].aid == aid && content[h].created == now && aid in artifacts && content[h].expires == Ends(artifacts[aid], now)
    {
      if !Handable(aid, now) { return Refused; }
      assert YieldOk(g);
      var credential: Credential;
      r, credential := Consume(g, aid, now);
      if !r.Done? { return; }
      if credential.user == "" || !live { return Refused; }
      CountYield(g);
      r := Issue(aid, ByUser(credential), now);
    }

    /** An artifact that can be handed off. */
    predicate Handable(aid: Id, now: real) reads `artifacts {
      aid in artifacts && !Expired(artifacts[aid], now) && artifacts[aid].visibility == Internal && artifacts[aid].ready
    }

    /** History: a used one-time grant is about to yield its content grant. */
    ghost method CountYield(g: Secret)
      requires Inv() && g in oneTime && oneTime[g].used && g in yielded && yielded[g] == 0
      modifies `yielded
      ensures Inv() && yielded == old(yielded)[g := 1]
    {
      yielded := yielded[g := 1];
      forall h ensures YieldOk(h) { assert old(YieldOk(h)); }
      forall h | h in content ensures ContentOk(h) { assert old(ContentOk(h)); }
    }

    /** The password of an external artifact yields a content grant bound to that password. */
    method Unlock(aid: Id, candidate: Secret, now: real) returns (r: Reply)
      requires Inv()
      modifies `content, `next
      ensures Inv() && (r.Granted? || r.Refused? || r.Failed?)
      ensures r.Refused? <==> !Unlocks(aid, candidate, now)
      ensures r.Refused? <==>
                || aid !in artifacts || artifacts[aid].visibility != External || !artifacts[aid].ready
                || (artifacts[aid].expires.Some? && artifacts[aid].expires.value <= now) || artifacts[aid].password != Some(candidate)
      ensures calm && Unlocks(aid, candidate, now) ==> r.Granted?
      ensures forall h | h in content :: h in old(content) || content[h].binding == ByPassword(candidate)
      ensures r.Granted? ==>
                && aid in artifacts && artifacts[aid].password == Some(candidate)
                && (artifacts[aid].expires.Some? ==> now < artifacts[aid].expires.value && r.expires <= artifacts[aid].expires.value)
      ensures r.Granted? ==> r.expires == Ends(artifacts[aid], now)
      ensures forall h | h in content && h !in old(content) ::
                content[h].aid == aid && content[h].created == now && aid in artifacts && content[h].expires == Ends(artifacts[aid], now)
      ensures r.Granted? && |old(OfArtifact(aid))| < cap ==>
                r.value !in old(content)
                && content == old(content)[r.value := Content(aid, Ends(artifacts[aid], now), now, ByPassword(candidate))]
      ensures old(Capped()) ==> (Capped() <==> r.Granted? || content == old(content))
      ensures old(Capped()) && |old(OfArtifact(aid))| < cap ==> Capped()
    {
      if aid !in artifacts || artifacts[aid].visibility != External || !artifacts[aid].ready { return Refused; }
      if artifacts[aid].password.None? || Expired(artifacts[aid], now) { return Refused; }
      if artifacts[aid].password.value != candidate { return Refused; }
      r := Issue(aid, ByPassword(artifacts[aid].password.value), now);
    }

    predicate Unlocks(aid: Id, candidate: Secret, now: real) reads `artifacts {
      aid in artifacts && artifacts[aid].visibility == External && artifacts[aid].ready
      && !Expired(artifacts[aid], now) && artifacts[aid].password == Some(candidate)
    }

    // ---------------------------------------------------------- looking up and revoking

    /** A grant that is found is of this artifact, not expired, and bound to its current password or to a user of an
        artifact that is internal now. */
    method Lookup(g: Secret, aid: Id, now: real) returns (found: Option<Content>)
      requires Inv()
      modifies `content
      ensures Inv()
      ensures found.Some? <==> g in old(content) && old(content)[g].aid == aid && now < old(content)[g].expires
      ensures content == if g in old(content) && old(content)[g].aid == aid && old(content)[g].expires <= now
                         then old(content) - {g} else old(content)
      ensures found.Some? ==> content == old(content) && found.value == content[g] && Bindable(aid, found.value.binding)
      ensures old(Capped()) ==> Capped()
    {
      if g !in content || content[g].aid != aid { return None; }
      assert ContentOk(g);
      if now >= content[g].expires {
        Remove(g);
        return None;
      }
      return Some(content[g]);
    }

    /** Logging out takes away what a credential was granted, one-time grants first. */
    method Revoke(user: string, token: string) returns (r: Reply)
      requires Inv()
      modifies `oneTime, `content
      ensures Inv() && (calm ==> r.Done?)
      ensures r.Done? ==> forall g | g in old(oneTime) ::
                g !in oneTime <==> old(oneTime)[g].credential.user == user && old(oneTime)[g].credential.token == token
      ensures r.Done? ==> forall g | g in old(content) && old(content)[g].binding.ByPassword? :: g in content
      ensures r.Done? ==> forall g | g in old(content) && old(content)[g].binding.ByUser? ::
                var c := old(content)[g].binding.credential;
                g !in content <==> c.user == user && c.token == token
      ensures forall g | g in oneTime :: g in old(oneTime) && oneTime[g] == old(oneTime)[g]
      ensures forall g | g in content :: g in old(content) && content[g] == old(content)[g]
      ensures old(Capped()) ==> Capped()
      ensures old(HandOffsInternal()) ==> HandOffsInternal()
    {
      var ok := Try();
      if !ok { return Failed; }
      oneTime := map g | g in oneTime && !Names(oneTime[g].credential, user, token) :: oneTime[g];
      OneTimeChanged(old(oneTime));
      ok := Try();
      if !ok { return Failed; }
      RemoveOf(user, token);
      return Done;
    }

    predicate Names(c: Credential, user: string, token: string) { c.user == user && c.token == token }

    method RemoveOf(user: string, token: string)
      requires Inv()
      modifies `content
      ensures Inv()
      ensures content == map g | g in old(content)
        && !(old(content)[g].binding.ByUser? && Names(old(content)[g].binding.credential, user, token)) :: old(content)[g]
      ensures old(Capped()) ==> Capped()
    {
      content := map g | g in content && !(content[g].binding.ByUser? && Names(content[g].binding.credential, user, token)) :: content[g];
      forall h ensures YieldOk(h) { assert old(YieldOk(h)); }
      forall h | h in content ensures ContentOk(h) { assert old(ContentOk(h)); }
      FewerStayCapped(old(content), content, cap);
    }
  }

  /** The store itself takes a one-time grant for any artifact; only the request handler in front of it asks for an
      internal one. Such a grant yields nothing as long as the artifact is not internal. */
  method HandOffOfExternal(s: Store, aid: Id, credential: Credential, now: real)
    requires s.Inv() && s.calm && aid in s.artifacts && s.artifacts[aid].visibility == External
    modifies s
    ensures s.Inv() && s.oneTime != old(s.oneTime) && s.content == old(s.content)
  {
    var made := s.CreateOneTime(aid, credential, now);
    assert made.Granted? && made.value in s.oneTime;
    var _ := s.Redeem(aid, made.value, true, now);
  }

  /** An issue whose trim fails at its first statement: whatever the store, an artifact at its cap is then over it. */
  method CutIssue(s: Store, aid: Id, b: Binding, now: real)
    requires s.Inv() && s.Bindable(aid, b) && |s.OfArtifact(aid)| == s.cap
    modifies s`content, s`next
    ensures s.Inv() && |s.OfArtifact(aid)| == s.cap + 1 && !s.Capped()
  {
    var value := s.Fresh();
    var c := Content(aid, s.Ends(s.artifacts[aid], now), now, b);
    Store.OneMore(s.content, aid, value, c);
    s.Insert(value, c);
  }

  /** Any cap is reached: a ready external artifact is unlocked as often as that. */
  method FillToCap(cap: nat) returns (s: Store, aid: Id, password: Secret)
    ensures fresh(s) && s.Inv() && s.cap == cap && s.Capped() && |s.OfArtifact(aid)| == cap
    ensures s.Unlocks(aid, password, 0.0)
  {
    s := new Store(cap, 1.0, 1.0);
    s.calm := true;
    aid := "external";
    var made := s.Create(aid, "user", External, None);
    password := made.value;
    s.Update(aid, s.artifacts[aid].(ready := true));
    assert s.OfArtifact(aid) == {};
    for i := 0 to cap
      invariant s.Inv() && s.calm && s.cap == cap && s.Capped() && s.Unlocks(aid, password, 0.0)
      invariant |s.OfArtifact(aid)| == i && fresh(s)
    {
      ghost var was := s.content;
      var r := s.Unlock(aid, password, 0.0);
      Store.OneMore(was, aid, r.value, s.content[r.value]);
    }
  }

  /** So whatever the cap, one more unlock can leave a store over it that kept it. */
  method CutTrim(cap: nat) returns (s: Store, aid: Id)
    ensures s.Inv() && |s.OfArtifact(aid)| == cap + 1 && !s.Capped()
  {
    var password: Secret;
    s, aid, password := FillToCap(cap);
    CutIssue(s, aid, ByPassword(password), 0.0);
  }
}
