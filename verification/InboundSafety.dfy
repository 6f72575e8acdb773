/** What every run of the inbound deliveries keeps. */
module InboundSafety {
  import opened Strings
  import opened InboundClaims
  import opened InboundDelivery

  // ---- Stored rows and their objects

  ghost predicate HasObjects(s: State, id: Id)
    requires id in s.deliveries
  {
    forall k | HasKey(s.deliveries[id], k) :: Blob(id, k) in s.blobs
  }

  ghost predicate HasAttachments(s: State, id: Id)
    requires id in s.deliveries
  {
    forall i | 0 <= i < s.deliveries[id].written :: Blob(id, Attachment(i)) in s.blobs
  }

  /** What a delivery's phase says about its row and its objects. */
  ghost predicate DeliveryOk(s: State, id: Id)
    requires id in s.deliveries
  {
    var d := s.deliveries[id];
    && (d.phase.Arrived? || MayStore(d.phase) ==> id !in s.history)
    && (d.phase.Arrived? ==> d.written == 0)
    && (d.phase.Refused? || d.phase.Cleaning? ==> id !in s.rows)
    && (d.phase.Stored? || d.phase.Automating? ==> id in s.history)
    && (d.phase.Attaching? ==> HasAttachments(s, id))
    && (d.phase.Filing? ==> d.written == d.attachments && HasObjects(s, id) && d.report == d.phase.report)
    && (d.phase.Stored? ==> d.report == d.phase.report)
    && (d.phase.Automating? ==> !d.report && d.phase.next <= 4)
    && (id in s.history ==> d.written == d.attachments)
    && (d.released ==> id !in s.rows && (d.phase.Cleaning? || d.phase.Ended?))
  }

  ghost predicate RowOk(s: State, id: Id) {
    && id in s.history && id in s.rows && s.rows[id] == s.history[id]
    && id in s.deliveries && HasObjects(s, id)
  }

  /** Every stored row has its objects, and every delivery is where its row and
      its objects are. */
  ghost predicate Safe(s: State) {
    && (forall id | id in s.rows :: RowOk(s, id))
    && (forall id | id in s.history :: id in s.deliveries && s.history[id] == s.deliveries[id].messageId)
    && (forall id | id in s.deliveries :: DeliveryOk(s, id))
    && (s.deleted ==> s.rows == map[])
  }

  /** Delivery `id` moved on; the rows are as they were. */
  ghost predicate Moved(s: State, t: State, id: Id) {
    && id in t.deliveries && t.deliveries == s.deliveries[id := t.deliveries[id]]
    && t.rows == s.rows && t.history == s.history && t.deleted == s.deleted
    && (id in s.deliveries ==> t.deliveries[id].messageId == s.deliveries[id].messageId)
    && (id in s.history ==> id in s.deliveries && t.deliveries[id].written == s.deliveries[id].written)
  }

  ghost predicate Kept(s: State, t: State, id: Id) {
    Moved(s, t, id) && s.blobs <= t.blobs && DeliveryOk(t, id)
  }

  /** Only objects of `id` were deleted, whose row is not stored. */
  ghost predicate Cleaned(s: State, t: State, id: Id) {
    && Moved(s, t, id) && id !in s.rows && t.deliveries[id].phase.Ended?
    && (forall b | b in s.blobs && b.id != id :: b in t.blobs)
    && (id in s.history ==> t.deliveries[id].written == t.deliveries[id].attachments)
  }

  /** The row of `id` was stored. */
  ghost predicate Inserted(s: State, t: State, id: Id) {
    && PhaseOf(s, id).Filing? && !s.deleted
    && exists p | p == Stored(s.deliveries[id].phase.report) || p == Failing ::
         t == To(Insert(s, id, s.deliveries[id].messageId), id, p)
  }

  lemma SafeMoved(s: State, t: State, id: Id)
    requires Safe(s) && Kept(s, t, id)
    ensures Safe(t)
  {
    forall i | i in t.deliveries ensures DeliveryOk(t, i) {
      if i != id {
        assert DeliveryOk(s, i);
      }
    }
    forall i | i in t.rows ensures RowOk(t, i) {
      assert RowOk(s, i);
    }
  }

  lemma SafeCleaned(s: State, t: State, id: Id)
    requires Safe(s) && Cleaned(s, t, id)
    ensures Safe(t)
  {
    forall i | i in t.deliveries ensures DeliveryOk(t, i) {
      if i != id {
        assert DeliveryOk(s, i);
      }
    }
    forall i | i in t.rows ensures RowOk(t, i) {
      assert RowOk(s, i);
    }
  }

  lemma SafeInserted(s: State, t: State, id: Id)
    requires Safe(s) && Inserted(s, t, id)
    ensures Safe(t)
  {
    assert DeliveryOk(s, id);
    forall i | i in t.deliveries ensures DeliveryOk(t, i) {
      if i != id {
        assert DeliveryOk(s, i);
      }
    }
    forall i | i in t.rows ensures RowOk(t, i) {
      if i != id {
        assert RowOk(s, i);
      }
    }
  }

  ghost predicate Knows(s: State, id: Id) {
    && (id in s.deliveries ==> DeliveryOk(s, id))
    && (id in s.history ==> id in s.deliveries)
    && (id in s.rows ==> id in s.history)
  }

  lemma KnowsAll(s: State, id: Id)
    requires Safe(s)
    ensures Knows(s, id)
  {
    assert id in s.rows ==> RowOk(s, id);
  }

  /** Actions around the deliveries. */
  predicate IsAround(a: Action) {
    a.Tick? || a.Land? || a.DeleteRow? || a.Sweep? || a.Purge? || a.Revive?
  }

  lemma OpeningMoves(s: State, a: Action, t: State)
    requires a.Arrive? || a.Fail? || a.Crash?
    requires Knows(s, a.id) && Step(s, a) == Some(t)
    ensures Kept(s, t, a.id)
  {
    hide HasObjects, HasAttachments;
  }

  lemma ClaimMoves(s: State, a: Action, t: State)
    requires a.Claims? && Knows(s, a.id) && Step(s, a) == Some(t)
    ensures Kept(s, t, a.id)
  {
    hide ClaimMessage, HasObjects;
  }

  lemma AttachmentMoves(s: State, a: Action, t: State)
    requires a.WriteAttachment? || a.FailAttachment?
    requires Knows(s, a.id) && Step(s, a) == Some(t)
    ensures Kept(s, t, a.id)
  {
  }

  lemma ContentMoves(s: State, a: Action, t: State)
    requires a.WriteContent? || a.FailContent?
    requires Knows(s, a.id) && Step(s, a) == Some(t)
    ensures Kept(s, t, a.id)
  {
  }

  lemma FileInserts(s: State, id: Id, create: Create, t: State)
    requires create.Returns? || create.StoresAndThrows?
    requires FileStep(s, id, create) == Some(t)
    ensures Inserted(s, t, id)
  {
    var p := if create.Returns? then Stored(s.deliveries[id].phase.report) else Failing;
    assert t == To(Insert(s, id, s.deliveries[id].messageId), id, p);
  }

  lemma FileKeeps(s: State, id: Id, create: Create, t: State)
    requires create.FolderMissing? || create.Refuses? || create.Throws?
    requires Knows(s, id) && FileStep(s, id, create) == Some(t)
    ensures Kept(s, t, id)
  {
    hide HasAttachments;
  }

  lemma FileMoves(s: State, a: Action, t: State)
    requires a.File? && Knows(s, a.id) && Step(s, a) == Some(t)
    ensures Kept(s, t, a.id) || Inserted(s, t, a.id)
  {
    hide FileStep, Knows, Kept, Inserted;
    if a.create.Returns? || a.create.StoresAndThrows? {
      FileInserts(s, a.id, a.create, t);
    } else {
      FileKeeps(s, a.id, a.create, t);
    }
  }

  lemma StepAbandon(s: State, a: Action)
    requires a.Abandon? || a.AbandonUnanswered?
    ensures Step(s, a) == if a.Abandon? then AbandonStep(s, a.id) else AbandonUnansweredStep(s, a.id, a.took)
  {
  }

  lemma AbandonKeeps(s: State, id: Id, t: State)
    requires Knows(s, id) && AbandonStep(s, id) == Some(t)
    ensures Kept(s, t, id)
  {
    hide AbandonClaim;
  }

  lemma UnansweredKeeps(s: State, id: Id, took: bool, t: State)
    requires Knows(s, id) && AbandonUnansweredStep(s, id, took) == Some(t)
    ensures Kept(s, t, id)
  {
    hide AbandonClaim;
  }

  lemma AbandonMoves(s: State, a: Action, t: State)
    requires a.Abandon? || a.AbandonUnanswered?
    requires Knows(s, a.id) && Step(s, a) == Some(t)
    ensures Kept(s, t, a.id)
  {
    hide *;
    StepAbandon(s, a);
    if a.Abandon? {
      AbandonKeeps(s, a.id, t);
    } else {
      UnansweredKeeps(s, a.id, a.took, t);
    }
  }

  lemma CleanMoves(s: State, a: Action, t: State)
    requires a.Clean? || a.FailClean?
    requires Knows(s, a.id) && Step(s, a) == Some(t)
    ensures Cleaned(s, t, a.id)
  {
  }

  lemma AfterMoves(s: State, a: Action, t: State)
    requires a.Complete? || a.Start? || a.Skip?
    requires Knows(s, a.id) && Step(s, a) == Some(t)
    ensures Kept(s, t, a.id)
  {
    hide CompleteClaim, Normalize;
  }

  lemma AroundSafe(s: State, a: Action, t: State)
    requires IsAround(a) && Safe(s) && Step(s, a) == Some(t)
    ensures Safe(t)
  {
    if a.Land? || a.DeleteRow? || a.Sweep? {
      AroundKeeps(s, a, t);
    }
  }

  lemma AroundKeeps(s: State, a: Action, t: State)
    requires a.Land? || a.DeleteRow? || a.Sweep?
    requires Safe(s) && Step(s, a) == Some(t)
    ensures Safe(t)
  {
    forall i | i in t.rows ensures RowOk(t, i) {
      assert RowOk(s, i);
    }
    forall i | i in t.deliveries ensures DeliveryOk(t, i) {
      assert DeliveryOk(s, i);
    }
  }

  /** How one step of a delivery changes the state. */
  lemma Moves(s: State, a: Action, t: State)
    requires !IsAround(a) && Knows(s, a.id) && Step(s, a) == Some(t)
    ensures Kept(s, t, a.id) || Cleaned(s, t, a.id) || Inserted(s, t, a.id)
  {
    hide Step, Knows, Kept, Cleaned, Inserted;
    if a.Arrive? || a.Fail? || a.Crash? {
      OpeningMoves(s, a, t);
    } else if a.Claims? {
      ClaimMoves(s, a, t);
    } else if a.File? {
      FileMoves(s, a, t);
    } else if a.Abandon? || a.AbandonUnanswered? {
      AbandonMoves(s, a, t);
    } else if a.Clean? || a.FailClean? {
      CleanMoves(s, a, t);
    } else if a.Complete? || a.Start? || a.Skip? {
      AfterMoves(s, a, t);
    } else if a.WriteAttachment? || a.FailAttachment? {
      AttachmentMoves(s, a, t);
    } else {
      ContentMoves(s, a, t);
    }
  }

  lemma SafeStep(s: State, a: Action, t: State)
    requires Safe(s) && Step(s, a) == Some(t)
    ensures Safe(t)
  {
    hide Step, Safe, Kept, Cleaned, Inserted, Knows;
    if IsAround(a) {
      AroundSafe(s, a, t);
    } else {
      KnowsAll(s, a.id);
      Moves(s, a, t);
      if Kept(s, t, a.id) {
        SafeMoved(s, t, a.id);
      } else if Cleaned(s, t, a.id) {
        SafeCleaned(s, t, a.id);
      } else {
        SafeInserted(s, t, a.id);
      }
    }
  }

  // ---- Effects

  function Progress(p: Phase): nat {
    match p
    case Automating(next) => next
    case Ended(_) => 4
    case _ => 0
  }

  /** An effect in the log: of a delivery whose row was stored, of no bounce
      report, and not to be started again. */
  ghost predicate EffectOk(s: State, e: Started) {
    && e.id in s.history && e.id in s.deliveries
    && !s.deliveries[e.id].report && Order(e.effect) < Progress(s.deliveries[e.id].phase)
  }

  ghost predicate EffectsOk(s: State) {
    && (forall i | 0 <= i < |s.effects| :: EffectOk(s, s.effects[i]))
    && (forall i, j | 0 <= i < j < |s.effects| :: s.effects[i] != s.effects[j])
  }

  /** What the effects depend on only grows. */
  ghost predicate Grows(s: State, t: State, id: Id) {
    && s.history.Keys <= t.history.Keys && t.effects == s.effects
    && (forall i | i in s.deliveries && i != id :: i in t.deliveries && t.deliveries[i] == s.deliveries[i])
    && (id in s.deliveries ==> id in t.deliveries)
    && (id in s.deliveries && id in s.history ==>
        && t.deliveries[id].report == s.deliveries[id].report
        && Progress(s.deliveries[id].phase) <= Progress(t.deliveries[id].phase))
  }

  lemma EffectsGrow(s: State, t: State, id: Id)
    requires EffectsOk(s) && Grows(s, t, id)
    ensures EffectsOk(t)
  {
    forall i | 0 <= i < |t.effects| ensures EffectOk(t, t.effects[i]) {
      assert EffectOk(s, s.effects[i]);
    }
  }

  lemma EffectStarted(s: State, t: State, id: Id, throws: bool)
    requires Safe(s) && EffectsOk(s) && StartStep(s, id, throws) == Some(t)
    ensures EffectsOk(t)
  {
    assert DeliveryOk(s, id);
    hide DeliveryOk, RowOk;
    var n := s.deliveries[id].phase.next;
    var e := Started(id, EffectAt(n));
    assert Order(EffectAt(n)) == n;
    assert e !in s.effects by {
      if i :| 0 <= i < |s.effects| && s.effects[i] == e {
        assert EffectOk(s, s.effects[i]);
      }
    }
    forall i | 0 <= i < |t.effects| ensures EffectOk(t, t.effects[i]) {
      if i < |s.effects| {
        assert EffectOk(s, s.effects[i]);
      }
    }
  }

  lemma ArriveGrows(s: State, a: Action, t: State)
    requires a.Arrive? && Knows(s, a.id) && Step(s, a) == Some(t)
    ensures Grows(s, t, a.id)
  {
    hide HasAttachments, HasObjects;
  }

  lemma ClaimGrows(s: State, a: Action, t: State)
    requires a.Claims? && Knows(s, a.id) && Step(s, a) == Some(t)
    ensures Grows(s, t, a.id)
  {
    hide HasAttachments, HasObjects, ClaimMessage, RowOk;
  }

  lemma WritingGrows(s: State, a: Action, t: State)
    requires a.WriteAttachment? || a.FailAttachment? || a.WriteContent? || a.FailContent?
    requires Knows(s, a.id) && Step(s, a) == Some(t)
    ensures Grows(s, t, a.id)
  {
    hide HasAttachments, HasObjects;
  }

  lemma FailingGrows(s: State, a: Action, t: State)
    requires a.Fail? || a.Crash?
    requires Knows(s, a.id) && Step(s, a) == Some(t)
    ensures Grows(s, t, a.id)
  {
    hide HasAttachments, HasObjects;
  }

  lemma ClosingGrows(s: State, a: Action, t: State)
    requires a.Complete? || a.Skip?
    requires Knows(s, a.id) && Step(s, a) == Some(t)
    ensures Grows(s, t, a.id)
  {
    hide HasAttachments, HasObjects, CompleteClaim, Normalize;
  }

  lemma FileGrows(s: State, id: Id, create: Create, t: State)
    requires Knows(s, id) && FileStep(s, id, create) == Some(t)
    ensures Grows(s, t, id)
  {
    hide HasAttachments, HasObjects;
  }

  lemma AbandonedGrows(s: State, id: Id, t: State)
    requires Knows(s, id) && AbandonStep(s, id) == Some(t)
    ensures Grows(s, t, id)
  {
    hide HasAttachments, HasObjects, AbandonClaim;
  }

  lemma UnansweredGrows(s: State, id: Id, took: bool, t: State)
    requires Knows(s, id) && AbandonUnansweredStep(s, id, took) == Some(t)
    ensures Grows(s, t, id)
  {
    hide HasAttachments, HasObjects, AbandonClaim;
  }

  lemma AbandonGrows(s: State, a: Action, t: State)
    requires a.Abandon? || a.AbandonUnanswered?
    requires Knows(s, a.id) && Step(s, a) == Some(t)
    ensures Grows(s, t, a.id)
  {
    hide *;
    StepAbandon(s, a);
    if a.Abandon? {
      AbandonedGrows(s, a.id, t);
    } else {
      UnansweredGrows(s, a.id, a.took, t);
    }
  }

  lemma CleanGrows(s: State, a: Action, t: State)
    requires a.Clean? || a.FailClean?
    requires Knows(s, a.id) && Step(s, a) == Some(t)
    ensures Grows(s, t, a.id)
  {
    hide HasAttachments, HasObjects;
  }

  lemma StepFile(s: State, a: Action)
    requires a.File?
    ensures Step(s, a) == FileStep(s, a.id, a.create)
  {
  }

  lemma EffectsAround(s: State, a: Action, t: State)
    requires IsAround(a) && EffectsOk(s) && Step(s, a) == Some(t)
    ensures EffectsOk(t)
  {
    hide EffectsOk;
    EffectsGrow(s, t, 0);
  }

  lemma StepStart(s: State, a: Action)
    requires a.Start?
    ensures Step(s, a) == StartStep(s, a.id, a.throws)
  {
  }

  /** Each step that starts no effect. */
  lemma StepGrows(s: State, a: Action, t: State)
    requires !IsAround(a) && !a.Start? && Knows(s, a.id) && Step(s, a) == Some(t)
    ensures Grows(s, t, a.id)
  {
    hide Step, Knows, Grows;
    if a.Abandon? || a.AbandonUnanswered? {
      AbandonGrows(s, a, t);
    } else if a.Clean? || a.FailClean? {
      CleanGrows(s, a, t);
    } else if a.File? {
      StepFile(s, a);
      FileGrows(s, a.id, a.create, t);
    } else if a.Fail? || a.Crash? {
      FailingGrows(s, a, t);
    } else if a.Complete? || a.Skip? {
      ClosingGrows(s, a, t);
    } else if a.Arrive? {
      ArriveGrows(s, a, t);
    } else if a.Claims? {
      ClaimGrows(s, a, t);
    } else {
      WritingGrows(s, a, t);
    }
  }

  lemma EffectsStep(s: State, a: Action, t: State)
    requires Safe(s) && EffectsOk(s) && Step(s, a) == Some(t)
    ensures EffectsOk(t)
  {
    hide Step, StartStep, Safe, EffectsOk, Knows, Grows;
    if IsAround(a) {
      EffectsAround(s, a, t);
    } else if a.Start? {
      StepStart(s, a);
      EffectStarted(s, t, a.id, a.throws);
    } else {
      KnowsAll(s, a.id);
      StepGrows(s, a, t);
      EffectsGrow(s, t, a.id);
    }
  }

  // ---- Nothing is left behind

  /** Without a failed call to the bucket, only recorded objects are there. */
  ghost predicate BlobOk(s: State, b: Blob) {
    && b.id in s.deliveries && !s.deliveries[b.id].phase.Arrived?
    && (!s.deliveries[b.id].faulty ==> HasKey(s.deliveries[b.id], b.key))
    && !GaveUp(s.deliveries[b.id])
  }

  ghost predicate LandingOk(s: State, b: Blob) {
    b.id in s.deliveries && !s.deliveries[b.id].phase.Arrived? && s.deliveries[b.id].faulty
  }

  ghost predicate ClaimOk(s: State, key: string, c: Claim) {
    && c.claimId in s.deliveries
    && var d := s.deliveries[c.claimId];
    && IsGiven(d.messageId) && key == KeyOf(d.messageId) && key != "" && !d.phase.Arrived? && !d.released
    && (c.emailId.Some? ==> d.phase.Automating? || d.phase.Ended?)
  }

  ghost predicate ReleaseOk(d: Delivery) {
    d.released ==> d.phase.Cleaning? || d.phase.Ended?
  }

  /** Gave its claim back, deleted its objects, and no call to the bucket failed. */
  predicate GaveUp(d: Delivery) {
    d.released && !d.faulty && (d.phase == Ended(Thrown) || d.phase == Ended(Rejected))
  }

  ghost predicate Tidy(s: State) {
    && (forall b | b in s.blobs :: BlobOk(s, b))
    && (forall b | b in s.landing :: LandingOk(s, b))
    && (forall key | key in s.claims :: ClaimOk(s, key, s.claims[key]))
    && (forall id | id in s.deliveries :: ReleaseOk(s.deliveries[id]))
  }

  ghost predicate OnlyMoved(s: State, t: State, id: Id) {
    id in t.deliveries && t.deliveries == s.deliveries[id := t.deliveries[id]] && ReleaseOk(t.deliveries[id])
  }

  /** Every object and write under way is as it was, or one of `id` and in order. */
  ghost predicate BlobsTidy(s: State, t: State, id: Id) {
    && (forall b | b in t.blobs :: (b in s.blobs && b.id != id) || (b.id == id && BlobOk(t, b)))
    && (forall b | b in t.landing :: (b in s.landing && b.id != id) || (b.id == id && LandingOk(t, b)))
  }

  ghost predicate ClaimsTidy(s: State, t: State, id: Id) {
    forall key | key in t.claims ::
      || (key in s.claims && t.claims[key] == s.claims[key] && t.claims[key].claimId != id)
      || (t.claims[key].claimId == id && ClaimOk(t, key, t.claims[key]))
  }

  lemma TidyMoved(s: State, t: State, id: Id)
    requires Tidy(s) && OnlyMoved(s, t, id) && BlobsTidy(s, t, id) && ClaimsTidy(s, t, id)
    ensures Tidy(t)
  {
    forall b | b in t.blobs ensures BlobOk(t, b) {
      if b.id != id {
        assert BlobOk(s, b);
      }
    }
    forall b | b in t.landing ensures LandingOk(t, b) {
      if b.id != id {
        assert LandingOk(s, b);
      }
    }
    forall key | key in t.claims ensures ClaimOk(t, key, t.claims[key]) {
      if t.claims[key].claimId != id {
        assert ClaimOk(s, key, s.claims[key]);
      }
    }
    forall i | i in t.deliveries ensures ReleaseOk(t.deliveries[i]) {
      if i != id {
        assert ReleaseOk(s.deliveries[i]);
      }
    }
  }

  /** `e` is `d` further on, with the same objects. */
  predicate SameObjects(d: Delivery, e: Delivery) {
    && e.written == d.written && e.faulty == d.faulty && !e.phase.Arrived?
    && (GaveUp(e) ==> GaveUp(d))
  }

  lemma SameBlobs(s: State, t: State, id: Id)
    requires Tidy(s) && OnlyMoved(s, t, id) && t.blobs == s.blobs && t.landing == s.landing
    requires id in s.deliveries ==> SameObjects(s.deliveries[id], t.deliveries[id])
    ensures BlobsTidy(s, t, id)
  {
    forall b | b in t.blobs && b.id == id ensures BlobOk(t, b) {
      assert BlobOk(s, b);
    }
    forall b | b in t.landing && b.id == id ensures LandingOk(t, b) {
      assert LandingOk(s, b);
    }
  }

  /** `e` is `d` further on, with the same claim. */
  predicate SameClaim(d: Delivery, e: Delivery) {
    && e.messageId == d.messageId && e.released == d.released && !e.phase.Arrived?
    && (d.phase.Automating? || d.phase.Ended? ==> e.phase.Automating? || e.phase.Ended?)
  }

  lemma SameClaims(s: State, t: State, id: Id)
    requires Tidy(s) && OnlyMoved(s, t, id) && t.claims == s.claims
    requires id in s.deliveries ==> SameClaim(s.deliveries[id], t.deliveries[id])
    ensures ClaimsTidy(s, t, id)
  {
    forall key | key in t.claims && t.claims[key].claimId == id ensures ClaimOk(t, key, t.claims[key]) {
      assert ClaimOk(s, key, s.claims[key]);
    }
  }

  /** Steps that leave objects and claims as they are. */
  lemma TidyPlain(s: State, t: State, id: Id)
    requires Tidy(s) && OnlyMoved(s, t, id)
    requires t.blobs == s.blobs && t.landing == s.landing && t.claims == s.claims
    requires id in s.deliveries ==>
      SameObjects(s.deliveries[id], t.deliveries[id]) && SameClaim(s.deliveries[id], t.deliveries[id])
    ensures Tidy(t)
  {
    SameBlobs(s, t, id);
    SameClaims(s, t, id);
    hide BlobsTidy, ClaimsTidy, Tidy, OnlyMoved;
    TidyMoved(s, t, id);
  }

  lemma TidyRelease(s: State, id: Id)
    requires Tidy(s) && id in s.deliveries
    ensures ReleaseOk(s.deliveries[id])
  {
  }

  lemma TidyArrive(s: State, id: Id, messageId: Option<string>, attachments: nat, t: State)
    requires Tidy(s) && ArriveStep(s, id, messageId, attachments) == Some(t)
    ensures Tidy(t)
  {
    hide Tidy;
    TidyPlain(s, t, id);
  }

  /** Only the phase changes. */
  lemma TidyTo(s: State, t: State, id: Id, p: Phase)
    requires Tidy(s) && id in s.deliveries && !p.Arrived?
    requires t.deliveries == s.deliveries[id := s.deliveries[id].(phase := p)]
    requires t.blobs == s.blobs && t.landing == s.landing && t.claims == s.claims
    requires s.deliveries[id].released ==> p == Ended(Crashed)
    requires s.deliveries[id].phase.Automating? || s.deliveries[id].phase.Ended? ==> p.Automating? || p.Ended?
    ensures Tidy(t)
  {
    TidyRelease(s, id);
    hide Tidy;
    TidyPlain(s, t, id);
  }

  lemma TidyFail(s: State, id: Id, t: State)
    requires Tidy(s) && FailStep(s, id) == Some(t)
    ensures Tidy(t)
  {
    TidyRelease(s, id);
    hide Tidy;
    TidyTo(s, t, id, t.deliveries[id].phase);
  }

  lemma TidyFile(s: State, id: Id, create: Create, t: State)
    requires Tidy(s) && FileStep(s, id, create) == Some(t)
    ensures Tidy(t)
  {
    TidyRelease(s, id);
    hide Tidy;
    TidyTo(s, t, id, t.deliveries[id].phase);
  }

  lemma TidyStart(s: State, id: Id, throws: bool, t: State)
    requires Tidy(s) && StartStep(s, id, throws) == Some(t)
    ensures Tidy(t)
  {
    TidyRelease(s, id);
    hide Tidy;
    TidyTo(s, t, id, t.deliveries[id].phase);
  }

  lemma TidySkip(s: State, id: Id, t: State)
    requires Tidy(s) && SkipStep(s, id) == Some(t)
    ensures Tidy(t)
  {
    TidyRelease(s, id);
    hide Tidy;
    TidyTo(s, t, id, t.deliveries[id].phase);
  }

  lemma TidyCrash(s: State, id: Id, t: State)
    requires Tidy(s) && CrashStep(s, id) == Some(t)
    ensures Tidy(t)
  {
    TidyRelease(s, id);
    hide Tidy;
    TidyTo(s, t, id, t.deliveries[id].phase);
  }

  // ---- Steps that change claims

  lemma ForeignClaims(s: State, id: Id)
    requires Tidy(s) && PhaseOf(s, id).Arrived?
    ensures forall key | key in s.claims :: s.claims[key].claimId != id
  {
    forall key | key in s.claims ensures s.claims[key].claimId != id {
      assert ClaimOk(s, key, s.claims[key]);
    }
  }

  lemma TidyClaimed(s: State, t: State, id: Id)
    requires Tidy(s) && OnlyMoved(s, t, id) && t.blobs == s.blobs && t.landing == s.landing
    requires id in s.deliveries && SameObjects(s.deliveries[id], t.deliveries[id])
    requires ClaimsTidy(s, t, id)
    ensures Tidy(t)
  {
    SameBlobs(s, t, id);
    hide BlobsTidy, ClaimsTidy, Tidy, OnlyMoved;
    TidyMoved(s, t, id);
  }

  lemma ClaimChanges(rows: Rows, claims: Claims, messageId: string, id: Id, now: int, key: string)
    requires key in ClaimMessage(rows, claims, messageId, id, now).claims
    ensures var after := ClaimMessage(rows, claims, messageId, id, now).claims;
      || (key in claims && after[key] == claims[key])
      || (key == Normalize(messageId) && key != "" && after[key] == Claim(id, now, None))
  {
  }

  lemma TidyClaim(s: State, id: Id, took: bool, answered: bool, t: State)
    requires Tidy(s) && ClaimStep(s, id, took, answered) == Some(t)
    ensures Tidy(t)
  {
    TidyRelease(s, id);
    ForeignClaims(s, id);
    hide Tidy, ClaimMessage;
    forall key | key in t.claims
      ensures (key in s.claims && t.claims[key] == s.claims[key])
           || (t.claims[key].claimId == id && ClaimOk(t, key, t.claims[key]))
    {
      var m := s.deliveries[id].messageId;
      if IsGiven(m) && key in ClaimMessage(s.rows, s.claims, m.value, id, s.now).claims {
        ClaimChanges(s.rows, s.claims, m.value, id, s.now, key);
      }
    }
    TidyClaimed(s, t, id);
  }

  /** The row is stored after all: only the delivery's own claim is completed. */
  lemma TidyAbandonStored(s: State, t: State, id: Id, p: Phase)
    requires Tidy(s) && (PhaseOf(s, id).Failing? || PhaseOf(s, id).Refused?) && p.Ended?
    requires id in s.rows && t == To(Abandoned(s, id), id, p)
    ensures Tidy(t)
  {
    TidyRelease(s, id);
    hide Normalize;
    forall key | key in t.claims
      ensures (key in s.claims && t.claims[key] == s.claims[key] && t.claims[key].claimId != id)
           || (t.claims[key].claimId == id && ClaimOk(t, key, t.claims[key]))
    {
      assert ClaimOk(s, key, s.claims[key]);
    }
    hide Tidy;
    TidyClaimed(s, t, id);
  }

  /** The row is not stored: the delivery's own claim is gone. */
  lemma TidyAbandonFreed(s: State, t: State, id: Id, d: Delivery)
    requires Tidy(s) && (PhaseOf(s, id).Failing? || PhaseOf(s, id).Refused?)
    requires d == s.deliveries[id].(phase := d.phase, released := d.released)
    requires d.phase.Cleaning? || (d.phase.Ended? && !d.released)
    requires id !in s.rows && t == With(Abandoned(s, id), id, d)
    ensures Tidy(t)
  {
    TidyRelease(s, id);
    hide Normalize, CompleteClaim;
    forall key | key in t.claims
      ensures key in s.claims && t.claims[key] == s.claims[key] && t.claims[key].claimId != id
    {
      assert ClaimOk(s, key, s.claims[key]);
    }
    hide Tidy;
    TidyClaimed(s, t, id);
  }

  lemma TidyAbandon(s: State, id: Id, t: State)
    requires Tidy(s) && AbandonStep(s, id) == Some(t)
    ensures Tidy(t)
  {
    hide Tidy, Abandoned;
    if id in s.rows {
      TidyAbandonStored(s, t, id, t.deliveries[id].phase);
    } else {
      TidyAbandonFreed(s, t, id, t.deliveries[id]);
    }
  }

  lemma TidyAbandonUnanswered(s: State, id: Id, took: bool, t: State)
    requires Tidy(s) && Knows(s, id) && AbandonUnansweredStep(s, id, took) == Some(t)
    ensures Tidy(t)
  {
    TidyRelease(s, id);
    assert PhaseOf(s, id).Refused? ==> id !in s.rows;
    hide Tidy, Abandoned, Knows;
    if !took {
      TidyTo(s, t, id, t.deliveries[id].phase);
    } else if id in s.rows {
      TidyAbandonStored(s, t, id, t.deliveries[id].phase);
    } else {
      TidyAbandonFreed(s, t, id, t.deliveries[id]);
    }
  }

  lemma TidyComplete(s: State, id: Id, took: bool, t: State)
    requires Tidy(s) && CompleteStep(s, id, took) == Some(t)
    ensures Tidy(t)
  {
    TidyRelease(s, id);
    hide Normalize;
    forall key | key in t.claims
      ensures (key in s.claims && t.claims[key] == s.claims[key] && t.claims[key].claimId != id)
           || (t.claims[key].claimId == id && ClaimOk(t, key, t.claims[key]))
    {
      assert ClaimOk(s, key, s.claims[key]);
    }
    hide Tidy;
    TidyClaimed(s, t, id);
  }

  // ---- Steps that change objects

  lemma TidyObjects(s: State, t: State, id: Id)
    requires Tidy(s) && OnlyMoved(s, t, id) && t.claims == s.claims && BlobsTidy(s, t, id)
    requires id in s.deliveries && SameClaim(s.deliveries[id], t.deliveries[id])
    ensures Tidy(t)
  {
    SameClaims(s, t, id);
    hide BlobsTidy, ClaimsTidy, Tidy, OnlyMoved;
    TidyMoved(s, t, id);
  }

  lemma OwnBlobs(s: State, id: Id)
    requires Tidy(s)
    ensures forall b | b in s.blobs && b.id == id :: BlobOk(s, b)
    ensures forall b | b in s.landing && b.id == id :: LandingOk(s, b)
  {
    hide BlobOk, LandingOk;
  }

  lemma TidyWriteAttachment(s: State, id: Id, t: State)
    requires Tidy(s) && WriteAttachmentStep(s, id) == Some(t)
    ensures Tidy(t)
  {
    TidyRelease(s, id);
    OwnBlobs(s, id);
    hide Tidy;
    TidyObjects(s, t, id);
  }

  lemma TidyFailAttachment(s: State, id: Id, landed: bool, t: State)
    requires Tidy(s) && FailAttachmentStep(s, id, landed) == Some(t)
    ensures Tidy(t)
  {
    TidyRelease(s, id);
    OwnBlobs(s, id);
    hide Tidy;
    TidyObjects(s, t, id);
  }

  lemma TidyWriteContent(s: State, id: Id, report: bool, folder: string, t: State)
    requires Tidy(s) && WriteContentStep(s, id, report, folder) == Some(t)
    ensures Tidy(t)
  {
    TidyRelease(s, id);
    OwnBlobs(s, id);
    hide Tidy;
    TidyObjects(s, t, id);
  }

  lemma TidyFailContent(s: State, id: Id, done: set<Key>, t: State)
    requires Tidy(s) && FailContentStep(s, id, done) == Some(t)
    ensures Tidy(t)
  {
    TidyRelease(s, id);
    OwnBlobs(s, id);
    hide Tidy;
    TidyObjects(s, t, id);
  }

  lemma TidyClean(s: State, id: Id, t: State)
    requires Tidy(s) && CleanStep(s, id) == Some(t)
    ensures Tidy(t)
  {
    TidyRelease(s, id);
    OwnBlobs(s, id);
    hide Tidy;
    TidyObjects(s, t, id);
  }

  lemma TidyFailClean(s: State, id: Id, gone: set<Key>, t: State)
    requires Tidy(s) && FailCleanStep(s, id, gone) == Some(t)
    ensures Tidy(t)
  {
    TidyRelease(s, id);
    OwnBlobs(s, id);
    hide Tidy;
    TidyObjects(s, t, id);
  }

  lemma TidyAround(s: State, a: Action, t: State)
    requires IsAround(a) && Tidy(s) && Step(s, a) == Some(t)
    ensures Tidy(t)
  {
    hide ReleaseOk;
    forall b | b in t.blobs ensures BlobOk(t, b) {
      assert if b in s.blobs then BlobOk(s, b) else LandingOk(s, b);
    }
    forall key | key in t.claims ensures ClaimOk(t, key, t.claims[key]) {
      assert ClaimOk(s, key, s.claims[key]);
    }
    forall b | b in t.landing ensures LandingOk(t, b) {
      assert LandingOk(s, b);
    }
  }

  lemma TidyStep(s: State, a: Action, t: State)
    requires Safe(s) && Tidy(s) && Step(s, a) == Some(t)
    ensures Tidy(t)
  {
    if !IsAround(a) {
      KnowsAll(s, a.id);
    }
    hide Safe, Tidy, Knows;
    hide ArriveStep, ClaimStep, WriteAttachmentStep, FailAttachmentStep, WriteContentStep, FailContentStep;
    hide FailStep, FileStep, AbandonStep, AbandonUnansweredStep, CleanStep, FailCleanStep;
    hide CompleteStep, StartStep, SkipStep, CrashStep;
    match a
    case Arrive(id, messageId, attachments) => TidyArrive(s, id, messageId, attachments, t);
    case Claims(id, took, answered) => TidyClaim(s, id, took, answered, t);
    case WriteAttachment(id) => TidyWriteAttachment(s, id, t);
    case FailAttachment(id, landed) => TidyFailAttachment(s, id, landed, t);
    case WriteContent(id, report, folder) => TidyWriteContent(s, id, report, folder, t);
    case FailContent(id, done) => TidyFailContent(s, id, done, t);
    case Fail(id) => TidyFail(s, id, t);
    case File(id, create) => TidyFile(s, id, create, t);
    case Abandon(id) => TidyAbandon(s, id, t);
    case AbandonUnanswered(id, took) => TidyAbandonUnanswered(s, id, took, t);
    case Clean(id) => TidyClean(s, id, t);
    case FailClean(id, gone) => TidyFailClean(s, id, gone, t);
    case Complete(id, took) => TidyComplete(s, id, took, t);
    case Start(id, throws) => TidyStart(s, id, throws, t);
    case Skip(id) => TidySkip(s, id, t);
    case Crash(id) => TidyCrash(s, id, t);
    case _ => TidyAround(s, a, t);
  }
}
