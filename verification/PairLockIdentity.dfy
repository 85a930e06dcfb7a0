/** Whom a pair lock answers to, in terms of what it says, and mutual exclusion for clients that say who they are. */
module PairLockIdentity {
  import opened Text
  import opened PairLock

  // What two payloads have in common

  ghost predicate SameOwner(a: Lock, b: Lock) {
    Strip(a.ownerId) == Strip(b.ownerId) && Strip(a.ownerId) != ""
  }

  ghost predicate SameRunOfBot(a: Lock, b: Lock) {
    && Strip(a.runId) == Strip(b.runId) && Strip(a.runId) != ""
    && Strip(a.botId) == Strip(b.botId) && Strip(a.botId) != ""
  }

  /** A payload refreshes a lock exactly if the two name the same owner, or the same run of the same bot. */
  lemma RefreshesOnlyItsOwn(existing: Lock, payload: Lock)
    ensures AcquireMatches(existing, payload) <==> SameOwner(existing, payload) || SameRunOfBot(existing, payload)
    ensures AcquireMatches(existing, payload) <==> AcquireMatches(payload, existing)
  {}

  /** A holder can refresh its own lock exactly if its payload names an owner, or a run and a bot. */
  lemma OwnLockIsRefreshed(l: Lock)
    ensures AcquireMatches(l, l) <==> Strip(l.ownerId) != "" || (Strip(l.runId) != "" && Strip(l.botId) != "")
  {}

  function ByOwner(id: string): Credentials {
    Credentials(Some(id), None, None)
  }

  function ByRun(runId: string, botId: string): Credentials {
    Credentials(None, Some(runId), Some(botId))
  }

  /** An owner id releases the locks of that owner and no other; unlike the stored one it is taken as it is. */
  lemma OwnerReleases(existing: Lock, id: string)
    ensures MayDelete(existing, ByOwner(id)) <==> id != "" && Strip(existing.ownerId) == id
  {}

  /** A run and its bot release the locks of both together, blanks around them aside. */
  lemma RunReleases(existing: Lock, runId: string, botId: string)
    ensures MayDelete(existing, ByRun(runId, botId)) <==>
            && runId != "" && botId != ""
            && Strip(existing.runId) == Strip(runId) && Strip(existing.botId) == Strip(botId)
  {}

  /** All three together release what either does; whatever is left out of them is not asked for. */
  lemma AllThreeRelease(existing: Lock, id: string, runId: string, botId: string)
    ensures MayDelete(existing, Credentials(Some(id), Some(runId), Some(botId))) <==>
            MayDelete(existing, ByOwner(id)) || MayDelete(existing, ByRun(runId, botId))
    ensures MayDelete(existing, Credentials(Some(id), Some(runId), None)) <==> MayDelete(existing, ByOwner(id))
    ensures MayDelete(existing, Credentials(Some(id), None, Some(botId))) <==> MayDelete(existing, ByOwner(id))
    ensures MayDelete(existing, Credentials(None, Some(runId), None))
    ensures MayDelete(existing, Credentials(None, None, Some(botId)))
    ensures MayDelete(existing, Credentials(None, None, None))
  {}

  // Clients that say who they are

  /** Every payload names an owner, no two name the same, and no two name the same run of the same bot. */
  ghost predicate DistinctIdentities(who: Directory) {
    && (forall c: Client :: who(c).ownerId != "" && Stripped(who(c).ownerId))
    && (forall c: Client, d: Client | c != d :: who(c).ownerId != who(d).ownerId)
    && (forall c: Client, d: Client | c != d :: !SameRunOfBot(who(c), who(d)))
  }

  /** A client's own credentials: its owner id, or its run and bot, or all three. */
  ghost predicate Own(credentials: Credentials, l: Lock) {
    || credentials == ByOwner(l.ownerId)
    || (Strip(l.runId) != "" && Strip(l.botId) != "" &&
        (credentials == ByRun(l.runId, l.botId)
         || credentials == Credentials(Some(l.ownerId), Some(l.runId), Some(l.botId))))
  }

  /** With distinct identities each lock answers to its own client and to no other, on either side. */
  lemma LocksAnswerTheirOwn(c: Client, d: Client, credentials: Credentials, who: Directory)
    requires DistinctIdentities(who) && Own(credentials, who(c))
    ensures MayDelete(who(d), credentials) <==> c == d
    ensures AcquireMatches(who(d), who(c)) <==> c == d
  {
    RefreshesOnlyItsOwn(who(d), who(c));
    if c != d {
      StrangerIsRefused(who(d), who(c), credentials);
    }
  }

  lemma StrangerIsRefused(existing: Lock, own: Lock, credentials: Credentials)
    requires Own(credentials, own) && !SameRunOfBot(existing, own)
    requires own.ownerId != "" && Stripped(own.ownerId) && Strip(existing.ownerId) != own.ownerId
    ensures !MayDelete(existing, credentials) && Checked(credentials)
  {}

  lemma DistinctAreDistinguishable(who: Directory)
    requires DistinctIdentities(who)
    ensures Distinguishable(who)
  {
    forall c: Client, d: Client | AcquireMatches(who(c), who(d)) ensures c == d {
      LocksAnswerTheirOwn(d, c, ByOwner(who(d).ownerId), who);
    }
  }

  lemma OwnIsOwn(c: Client, credentials: Credentials, who: Directory)
    requires DistinctIdentities(who) && Own(credentials, who(c))
    ensures OwnCredentials(c, credentials, who)
  {
    forall d: Client | ReleaseMatches(who(d), credentials) ensures c == d {
      LocksAnswerTheirOwn(c, d, credentials, who);
    }
  }

  /** Every release names its caller, and no lock lapses between its owner's GET and the SET or DEL that follows. */
  ghost predicate Honest(steps: seq<Step>, who: Directory) {
    steps != [] ==>
      var init, last := steps[..|steps| - 1], steps[|steps| - 1];
      && Honest(init, who)
      && (last.ReleaseGet? ==> Own(last.credentials, who(last.c)))
      && (last.Expire? ==> ExpiryAllowed(Run(START, init, who), last.pair))
  }

  lemma {:induction false} HonestIsFair(steps: seq<Step>, who: Directory)
    requires DistinctIdentities(who) && Honest(steps, who)
    ensures FairRun(steps, who)
  {
    if steps != [] {
      var last := steps[|steps| - 1];
      HonestIsFair(steps[..|steps| - 1], who);
      if last.ReleaseGet? {
        OwnIsOwn(last.c, last.credentials, who);
      }
    }
  }

  /** Mutual exclusion in terms of what clients say: distinct identities, and releases that name their caller. */
  lemma HonestClientsExclude(steps: seq<Step>, who: Directory)
    requires DistinctIdentities(who) && Honest(steps, who)
    ensures SafeRun(steps, who) && Exclusive(Run(START, steps, who))
  {
    DistinctAreDistinguishable(who);
    HonestIsFair(steps, who);
    NeverTwoHolders(steps, who);
  }

  // What undisturbed operations do

  /** On a free pair an acquire takes the lock under its own payload. */
  lemma FreePairIsAcquired(s: State, c: Client, pair: Pair, who: Directory)
    requires PcOf(s, c) == Idle && pair !in s.locks
    ensures var s' := Next(Next(s, AcquireGet(c, pair), who), AcquireSetNx(c), who);
      && s'.locks == s.locks[pair := (c, who(c))] && s'.holds == s.holds + {(c, pair)} && PcOf(s', c) == Idle
  {}

  /** On a held pair it writes exactly if the payloads match; else it is turned away and changes nothing. */
  lemma HeldPairIsRefreshed(s: State, c: Client, pair: Pair, who: Directory)
    requires PcOf(s, c) == Idle && pair in s.locks
    ensures var seen := Next(s, AcquireGet(c, pair), who); var s' := Next(seen, AcquireSet(c), who);
      if SameOwner(s.locks[pair].1, who(c)) || SameRunOfBot(s.locks[pair].1, who(c))
      then s'.locks == s.locks[pair := (c, who(c))] && s'.holds == s.holds + {(c, pair)} && PcOf(s', c) == Idle
      else seen == s && s' == s
  {
    RefreshesOnlyItsOwn(s.locks[pair].1, who(c));
  }

  /** A release deletes the lock exactly if it may; else it changes nothing. */
  lemma LockIsReleased(s: State, c: Client, pair: Pair, credentials: Credentials, who: Directory)
    requires PcOf(s, c) == Idle
    ensures var seen := Next(s, ReleaseGet(c, pair, credentials), who); var s' := Next(seen, ReleaseDel(c), who);
      if pair in s.locks && MayDelete(s.locks[pair].1, credentials)
      then s'.locks == s.locks - {pair} && s'.holds == s.holds - {(c, pair)} && PcOf(s', c) == Idle
      else seen == s && s' == s
  {}
}
