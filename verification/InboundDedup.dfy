/** One Message-ID is stored once: the main results about inbound delivery. */
module InboundDedup {
  import opened Strings
  import opened Folders
  import opened InboundClaims
  import opened InboundDelivery
  import opened InboundSafety
  import opened MessageIds

  // ---- The invariant for one Message-ID

  /** Delivery `id` may still store a row for `m`. */
  predicate IsRival(s: State, id: Id, m: string) {
    MayStore(PhaseOf(s, id)) && s.deliveries[id].messageId == Some(m)
  }

  /** `id` holds the claim on `m`, which is not stored. */
  predicate Holds(s: State, id: Id, m: string) {
    m in s.claims && s.claims[m].claimId == id && s.claims[m].emailId.None? && !HasRow(s.rows, m)
  }

  predicate IsRowOf(s: State, id: Id, m: string) {
    id in s.rows && s.rows[id] == Some(m)
  }

  ghost predicate Unique(s: State, m: string) {
    && (!s.deleted ==> forall id :: IsRival(s, id, m) ==> Holds(s, id, m))
    && (forall i, j :: IsRowOf(s, i, m) && IsRowOf(s, j, m) ==> i == j)
  }

  /** The claim of a delivery that may still store is not stale. */
  predicate IsFresh(s: State, id: Id) {
    MayStore(PhaseOf(s, id)) ==>
      var key := KeyOf(s.deliveries[id].messageId);
      key in s.claims && s.claims[key].claimId == id ==> s.now - s.claims[key].claimedAt < STALE_MS
  }

  /** A claim goes stale only after its holder is dead, and a deleted mailbox is
      not made anew while a delivery from before is still under way. */
  ghost predicate IsPrompt(s: State, a: Action) {
    match a
    case Claims(_, _, _) => forall id :: IsFresh(s, id)
    case Revive => forall id :: !MayStore(PhaseOf(s, id))
    case _ => true
  }

  // ---- Steps that neither claim nor store

  predicate IsQuiet(a: Action) {
    !IsAround(a) && !a.Claims? && !(a.File? && IsStoring(a.create))
  }

  /** `id` moved on, changing no claim but its own; if it may still store, it may
      have before, and no claim changed. */
  ghost predicate Quiet(s: State, t: State, id: Id) {
    && t.rows == s.rows && t.deleted == s.deleted
    && id in t.deliveries && t.deliveries == s.deliveries[id := t.deliveries[id]]
    && (id in s.deliveries ==> t.deliveries[id].messageId == s.deliveries[id].messageId)
    && (MayStore(PhaseOf(t, id)) ==> MayStore(PhaseOf(s, id)) && t.claims == s.claims)
    && forall key | key in s.claims && s.claims[key].claimId != id :: key in t.claims && t.claims[key] == s.claims[key]
  }

  lemma UniqueQuiet(s: State, t: State, id: Id, m: string)
    requires Unique(s, m) && Quiet(s, t, id)
    ensures Unique(t, m)
  {
    forall i | IsRival(t, i, m) && !t.deleted ensures Holds(t, i, m) {
      assert IsRival(s, i, m);
    }
    forall i, j | IsRowOf(t, i, m) && IsRowOf(t, j, m) ensures i == j {
      assert IsRowOf(s, i, m) && IsRowOf(s, j, m);
    }
  }

  lemma QuietArrive(s: State, a: Action, t: State)
    requires a.Arrive? && Step(s, a) == Some(t)
    ensures Quiet(s, t, a.id)
  {
  }

  lemma QuietAttaching(s: State, a: Action, t: State)
    requires a.WriteAttachment? || a.FailAttachment?
    requires Step(s, a) == Some(t)
    ensures Quiet(s, t, a.id)
  {
  }

  lemma QuietWriting(s: State, a: Action, t: State)
    requires a.WriteContent? || a.FailContent?
    requires Step(s, a) == Some(t)
    ensures Quiet(s, t, a.id)
  {
  }

  lemma QuietMoving(s: State, a: Action, t: State)
    requires a.Fail? || (a.File? && !IsStoring(a.create)) || a.Start? || a.Skip? || a.Crash?
    requires Step(s, a) == Some(t)
    ensures Quiet(s, t, a.id)
  {
  }

  lemma QuietAbandon(s: State, id: Id, t: State)
    requires AbandonStep(s, id) == Some(t)
    ensures Quiet(s, t, id)
  {
    hide Normalize;
  }

  lemma QuietUnanswered(s: State, id: Id, took: bool, t: State)
    requires AbandonUnansweredStep(s, id, took) == Some(t)
    ensures Quiet(s, t, id)
  {
    hide Normalize;
  }

  lemma QuietComplete(s: State, id: Id, took: bool, t: State)
    requires CompleteStep(s, id, took) == Some(t)
    ensures Quiet(s, t, id)
  {
    hide Normalize;
  }

  lemma QuietClosing(s: State, a: Action, t: State)
    requires a.Abandon? || a.AbandonUnanswered? || a.Complete?
    requires Step(s, a) == Some(t)
    ensures Quiet(s, t, a.id)
  {
    hide Quiet, AbandonStep, AbandonUnansweredStep, CompleteStep;
    if a.Complete? {
      QuietComplete(s, a.id, a.took, t);
    } else {
      StepAbandon(s, a);
      hide Step;
      if a.Abandon? {
        QuietAbandon(s, a.id, t);
      } else {
        QuietUnanswered(s, a.id, a.took, t);
      }
    }
  }

  lemma QuietCleaning(s: State, a: Action, t: State)
    requires a.Clean? || a.FailClean?
    requires Step(s, a) == Some(t)
    ensures Quiet(s, t, a.id)
  {
  }

  lemma QuietStep(s: State, a: Action, t: State)
    requires IsQuiet(a) && Step(s, a) == Some(t)
    ensures Quiet(s, t, a.id)
  {
    hide Step, Quiet;
    if a.Abandon? || a.AbandonUnanswered? || a.Complete? {
      QuietClosing(s, a, t);
    } else if a.Clean? || a.FailClean? {
      QuietCleaning(s, a, t);
    } else if a.Fail? || a.File? || a.Start? || a.Skip? || a.Crash? {
      QuietMoving(s, a, t);
    } else if a.WriteContent? || a.FailContent? {
      QuietWriting(s, a, t);
    } else if a.Arrive? {
      QuietArrive(s, a, t);
    } else {
      QuietAttaching(s, a, t);
    }
  }

  // ---- Claiming

  /** A fresh claim of another delivery is never lost to a claim. */
  lemma FreshClaimKept(rows: Rows, claims: Claims, messageId: string, id: Id, now: int, m: string)
    requires m in claims && claims[m].emailId.None? && now - claims[m].claimedAt < STALE_MS
    ensures var c := ClaimMessage(rows, claims, messageId, id, now);
      && m in c.claims && c.claims[m] == claims[m]
      && (Normalize(messageId) == m && m != "" ==> !c.ok)
  {
    hide Normalize, HasRow;
  }

  lemma ClaimWins(rows: Rows, claims: Claims, messageId: string, id: Id, now: int)
    requires Normalize(messageId) != "" && ClaimMessage(rows, claims, messageId, id, now).ok
    ensures var key, c := Normalize(messageId), ClaimMessage(rows, claims, messageId, id, now);
      key in c.claims && c.claims[key] == Claim(id, now, None) && !HasRow(rows, key)
  {
    hide Normalize, HasRow;
  }

  lemma UniqueClaim(s: State, id: Id, took: bool, answered: bool, t: State, m: string)
    requires Unique(s, m) && IsCanonical(m) && IsPrompt(s, Claims(id, took, answered))
    requires ClaimStep(s, id, took, answered) == Some(t)
    ensures Unique(t, m)
  {
    var given := s.deliveries[id].messageId;
    hide ClaimMessage, HasRow, Normalize;
    assert t.rows == s.rows && t.deleted == s.deleted;
    assert given == Some(m) ==> IsGiven(given) && Normalize(m) == m;
    forall i | IsRival(t, i, m) && !t.deleted ensures Holds(t, i, m) {
      if i == id {
        ClaimWins(s.rows, s.claims, m, id, s.now);
      } else {
        assert IsRival(s, i, m) && Holds(s, i, m) && IsFresh(s, i);
        if IsGiven(given) {
          FreshClaimKept(s.rows, s.claims, given.value, id, s.now, m);
        }
      }
    }
    forall i, j | IsRowOf(t, i, m) && IsRowOf(t, j, m) ensures i == j {
      assert IsRowOf(s, i, m) && IsRowOf(s, j, m);
    }
  }

  // ---- Storing

  lemma HasRowInsert(rows: Rows, id: Id, given: Option<string>, m: string)
    requires given != Some(m) && !HasRow(rows, m)
    ensures !HasRow(rows[id := given], m)
  {
  }

  lemma UniqueStore(s: State, id: Id, create: Create, t: State, m: string)
    requires Unique(s, m) && IsStoring(create) && FileStep(s, id, create) == Some(t)
    ensures Unique(t, m)
  {
    var given := s.deliveries[id].messageId;
    assert given == Some(m) ==> IsRival(s, id, m) && Holds(s, id, m);
    assert !s.deleted && !t.deleted && t.claims == s.claims && t.rows == s.rows[id := given];
    assert !MayStore(PhaseOf(t, id));
    forall i | IsRival(t, i, m) ensures Holds(t, i, m) {
      assert i != id && IsRival(s, i, m) && Holds(s, i, m);
      assert given != Some(m);
      HasRowInsert(s.rows, id, given, m);
    }
    forall i, j | IsRowOf(t, i, m) && IsRowOf(t, j, m) ensures i == j {
      if i != id && j != id {
        assert IsRowOf(s, i, m) && IsRowOf(s, j, m);
      } else if given == Some(m) {
        assert !HasRow(s.rows, m);
      }
    }
  }

  lemma UniqueAround(s: State, a: Action, t: State, m: string)
    requires Unique(s, m) && Safe(s) && IsAround(a) && IsPrompt(s, a) && Step(s, a) == Some(t)
    ensures Unique(t, m)
  {
    hide RowOk, DeliveryOk;
    forall i | IsRival(t, i, m) && !t.deleted ensures Holds(t, i, m) {
      assert IsRival(s, i, m);
      assert !s.deleted ==> Holds(s, i, m);
    }
    forall i, j | IsRowOf(t, i, m) && IsRowOf(t, j, m) ensures i == j {
      assert IsRowOf(s, i, m) && IsRowOf(s, j, m);
    }
  }

  lemma UniqueStep(s: State, a: Action, t: State, m: string)
    requires Safe(s) && Unique(s, m) && IsCanonical(m) && IsPrompt(s, a) && Step(s, a) == Some(t)
    ensures Unique(t, m)
  {
    hide Safe, Unique, IsPrompt, Quiet, IsCanonical, ClaimStep, FileStep, IsQuiet, IsStoring;
    if IsAround(a) {
      UniqueAround(s, a, t, m);
    } else if a.Claims? {
      UniqueClaim(s, a.id, a.took, a.answered, t, m);
    } else if a.File? && IsStoring(a.create) {
      UniqueStore(s, a.id, a.create, t, m);
    } else {
      assert IsQuiet(a) by { QuietOthers(a); }
      hide Step;
      QuietStep(s, a, t);
      UniqueQuiet(s, t, a.id, m);
    }
  }

  lemma QuietOthers(a: Action)
    requires !IsAround(a) && !a.Claims? && !(a.File? && IsStoring(a.create))
    ensures IsQuiet(a)
  {
  }

  // ---- Every run

  lemma {:induction false} RunSafe(s: State, actions: seq<Action>, t: State)
    requires Safe(s) && EffectsOk(s) && Tidy(s) && After(s, actions) == Some(t)
    ensures Safe(t) && EffectsOk(t) && Tidy(t)
    decreases |actions|
  {
    hide Step, Safe, EffectsOk, Tidy;
    if actions != [] {
      var u := Step(s, actions[0]).value;
      SafeStep(s, actions[0], u);
      EffectsStep(s, actions[0], u);
      TidyStep(s, actions[0], u);
      RunSafe(u, actions[1..], t);
    }
  }

  /** Every step of the run is prompt, action `but` aside. */
  ghost predicate IsPromptBut(s: State, actions: seq<Action>, but: Option<Action>)
    decreases |actions|
  {
    actions == [] ||
    (&& (but == Some(actions[0]) || IsPrompt(s, actions[0]))
     && (Step(s, actions[0]).Some? ==> IsPromptBut(Step(s, actions[0]).value, actions[1..], but)))
  }

  ghost predicate IsPromptRun(s: State, actions: seq<Action>) {
    IsPromptBut(s, actions, None)
  }

  lemma {:induction false} RunUnique(s: State, actions: seq<Action>, t: State, m: string)
    requires Safe(s) && Unique(s, m) && IsCanonical(m)
    requires IsPromptRun(s, actions) && After(s, actions) == Some(t)
    ensures Unique(t, m)
    decreases |actions|
  {
    hide Step, Safe, Unique, IsPrompt, IsCanonical;
    assert IsPromptBut(s, actions, None);
    if actions != [] {
      var u := Step(s, actions[0]).value;
      SafeStep(s, actions[0], u);
      UniqueStep(s, actions[0], u, m);
      RunUnique(u, actions[1..], t, m);
    }
  }

  // ---- Main results

  /** No run deletes an object of a stored row: both contents and every
      attachment are there for as long as the row is. */
  lemma {:induction false} StoredObjectsStay(now: int, actions: seq<Action>, s: State)
    requires After(Init(now), actions) == Some(s)
    ensures forall id | id in s.rows ::
      && id in s.deliveries && Blob(id, Body) in s.blobs && Blob(id, Raw) in s.blobs
      && forall i | 0 <= i < s.deliveries[id].attachments :: Blob(id, Attachment(i)) in s.blobs
  {
    RunSafe(Init(now), actions, s);
    forall id | id in s.rows
      ensures id in s.deliveries && Blob(id, Body) in s.blobs && Blob(id, Raw) in s.blobs
      ensures forall i | 0 <= i < s.deliveries[id].attachments :: Blob(id, Attachment(i)) in s.blobs
    {
      assert RowOk(s, id) && DeliveryOk(s, id);
    }
  }

  /** A delivery that gave up, with every call to the bucket done, leaves no
      object, no write under way, no claim and no row behind. */
  lemma {:induction false} NothingLeftBehind(now: int, actions: seq<Action>, s: State, id: Id)
    requires After(Init(now), actions) == Some(s)
    requires id in s.deliveries && GaveUp(s.deliveries[id])
    ensures forall b | b in s.blobs + s.landing :: b.id != id
    ensures forall key | key in s.claims :: s.claims[key].claimId != id
    ensures id !in s.rows
  {
    RunSafe(Init(now), actions, s);
    assert DeliveryOk(s, id);
    forall b | b in s.blobs + s.landing ensures b.id != id {
      assert if b in s.blobs then BlobOk(s, b) else LandingOk(s, b);
    }
    forall key | key in s.claims ensures s.claims[key].claimId != id {
      assert ClaimOk(s, key, s.claims[key]);
    }
  }

  /** The rows of `m` and the deliveries that may still store one. */
  ghost function Contenders(s: State, m: string): set<Id> {
    set id | id in s.deliveries && (IsRowOf(s, id, m) || (!s.deleted && IsRival(s, id, m)))
  }

  lemma AtMostOneOf(ids: set<Id>)
    requires forall i, j | i in ids && j in ids :: i == j
    ensures |ids| <= 1
  {
    if ids != {} {
      var i :| i in ids;
      assert ids == {i};
    }
  }

  /** In every prompt run, the stored rows of a canonical Message-ID and the
      deliveries that may still store one never exceed one. */
  lemma {:induction false} OneContender(now: int, actions: seq<Action>, s: State, m: string)
    requires IsCanonical(m) && IsPromptRun(Init(now), actions) && After(Init(now), actions) == Some(s)
    ensures |Contenders(s, m)| <= 1
  {
    RunUnique(Init(now), actions, s, m);
    forall i, j | i in Contenders(s, m) && j in Contenders(s, m) ensures i == j {
      assert !s.deleted && IsRival(s, i, m) ==> Holds(s, i, m);
      assert !s.deleted && IsRival(s, j, m) ==> Holds(s, j, m);
      assert IsRowOf(s, i, m) || IsRowOf(s, j, m) ==> HasRow(s.rows, m);
    }
    AtMostOneOf(Contenders(s, m));
  }

  /** Forward, auto-reply, auto-draft and push start only for a delivery whose
      row was stored, each at most once, and never for a bounce report. */
  lemma {:induction false} EffectsOnce(now: int, actions: seq<Action>, s: State)
    requires After(Init(now), actions) == Some(s)
    ensures forall i | 0 <= i < |s.effects| ::
      s.effects[i].id in s.history && s.effects[i].id in s.deliveries && !s.deliveries[s.effects[i].id].report
    ensures forall i, j | 0 <= i < j < |s.effects| :: s.effects[i] != s.effects[j]
  {
    RunSafe(Init(now), actions, s);
    forall i | 0 <= i < |s.effects|
      ensures s.effects[i].id in s.history && s.effects[i].id in s.deliveries && !s.deliveries[s.effects[i].id].report
    {
      assert EffectOk(s, s.effects[i]);
    }
  }

  /** Two deliveries of one canonical Message-ID start the same effect only when
      a row of it is gone again: without deletions, never. */
  lemma {:induction false} EffectsOncePerMessage(now: int, actions: seq<Action>, s: State, m: string, i: nat, j: nat)
    requires IsCanonical(m) && IsPromptRun(Init(now), actions) && After(Init(now), actions) == Some(s)
    requires i < j < |s.effects| && s.effects[i].effect == s.effects[j].effect
    requires s.effects[i].id in s.history && s.history[s.effects[i].id] == Some(m)
    requires s.effects[j].id in s.history && s.history[s.effects[j].id] == Some(m)
    ensures exists id | id in s.history :: s.history[id] == Some(m) && id !in s.rows
  {
    EffectsOnce(now, actions, s);
    RunSafe(Init(now), actions, s);
    RunUnique(Init(now), actions, s, m);
    var a, b := s.effects[i].id, s.effects[j].id;
    assert a != b by { assert s.effects[i] != s.effects[j]; }
    if a in s.rows && b in s.rows {
      assert RowOk(s, a) && RowOk(s, b);
      assert IsRowOf(s, a, m) && IsRowOf(s, b, m);
      assert false;
    }
  }

  // ---- When it fails

  function RowsOf(s: State, m: string): set<Id> {
    set id | id in s.rows && s.rows[id] == Some(m)
  }

  /** Every prompt run stores `m` at most once at a time. */
  ghost predicate IsStoredOnce(m: string) {
    forall now, actions: seq<Action> ::
      IsPromptRun(Init(now), actions) && After(Init(now), actions).Some? ==>
        |RowsOf(After(Init(now), actions).value, m)| <= 1
  }

  lemma {:induction false} AfterCons(s: State, a: Action, rest: seq<Action>, but: Option<Action>)
    requires Step(s, a).Some?
    ensures After(s, [a] + rest) == After(Step(s, a).value, rest)
    ensures IsPromptBut(s, [a] + rest, but) <==>
      (but == Some(a) || IsPrompt(s, a)) && IsPromptBut(Step(s, a).value, rest, but)
  {
    hide Step, IsPrompt;
    assert ([a] + rest)[1..] == rest;
  }

  /** Nothing is under way that could still store. */
  ghost predicate IsIdle(s: State) {
    forall id :: !MayStore(PhaseOf(s, id))
  }

  /** A delivery without attachments arrives and claims. */
  function Claiming(id: Id, m: string, rest: seq<Action>): seq<Action> {
    [Arrive(id, Some(m), 0)] + ([Claims(id, m != "", true)] + rest)
  }

  /** It stores its row in the Inbox and completes its claim. */
  function Storing(id: Id, rest: seq<Action>): seq<Action> {
    [WriteContent(id, false, INBOX)] + ([File(id, Returns)] + ([Complete(id, true)] + rest))
  }

  function Mail(m: string, p: Phase): Delivery {
    Delivery(Some(m), 0, 0, p, false, false, false)
  }

  lemma ClaimingLeads(s: State, id: Id, m: string, rest: seq<Action>, but: Option<Action>) returns (t: State)
    requires id !in s.deliveries && ClaimMessage(s.rows, s.claims, m, id, s.now).ok
    requires but == Some(Claims(id, m != "", true)) || forall i :: IsFresh(With(s, id, Mail(m, Arrived)), i)
    ensures t == s.(claims := if m == "" then s.claims else ClaimMessage(s.rows, s.claims, m, id, s.now).claims,
                    deliveries := s.deliveries[id := Mail(m, Attaching)])
    ensures After(s, Claiming(id, m, rest)) == After(t, rest)
    ensures IsPromptBut(s, Claiming(id, m, rest), but) <==> IsPromptBut(t, rest, but)
  {
    var u := With(s, id, Mail(m, Arrived));
    hide After, IsPromptBut, ClaimMessage, IsFresh;
    t := Step(u, Claims(id, m != "", true)).value;
    AfterCons(s, Arrive(id, Some(m), 0), [Claims(id, m != "", true)] + rest, but);
    AfterCons(u, Claims(id, m != "", true), rest, but);
  }

  lemma IdleFresh(s: State, id: Id, m: string)
    requires IsIdle(s)
    ensures forall i :: IsFresh(With(s, id, Mail(m, Arrived)), i)
  {
    var u := With(s, id, Mail(m, Arrived));
    forall i ensures IsFresh(u, i) {
      assert !MayStore(PhaseOf(s, i));
    }
  }

  lemma UnclaimedFresh(s: State, id: Id, m: string)
    requires s.claims == map[]
    ensures forall i :: IsFresh(With(s, id, Mail(m, Arrived)), i)
  {
    hide Normalize;
  }

  lemma StoringStates(s: State, id: Id, m: string) returns (u: State, v: State, t: State)
    requires id in s.deliveries && s.deliveries[id] == Mail(m, Attaching) && !s.deleted
    ensures Step(s, WriteContent(id, false, INBOX)) == Some(u) && Step(u, File(id, Returns)) == Some(v)
    ensures Step(v, Complete(id, true)) == Some(t)
    ensures t.rows == s.rows[id := Some(m)] && t.history == s.history[id := Some(m)]
    ensures !t.deleted && t.now == s.now && t.effects == s.effects
    ensures t.deliveries == s.deliveries[id := Mail(m, Automating(0))]
    ensures t.claims == CompleteClaim(s.claims, Normalize(m), id) || (m == "" && t.claims == s.claims)
  {
    hide Normalize, CompleteClaim;
    u := WriteContentStep(s, id, false, INBOX).value;
    v := FileStep(u, id, Returns).value;
    t := CompleteStep(v, id, true).value;
  }

  lemma StoringIsPrompt(s: State, u: State, v: State, id: Id)
    ensures IsPrompt(s, WriteContent(id, false, INBOX)) && IsPrompt(u, File(id, Returns))
    ensures IsPrompt(v, Complete(id, true))
  {
  }

  lemma StoringLeads(s: State, id: Id, m: string, rest: seq<Action>, but: Option<Action>) returns (t: State)
    requires id in s.deliveries && s.deliveries[id] == Mail(m, Attaching) && !s.deleted
    ensures t.rows == s.rows[id := Some(m)] && t.history == s.history[id := Some(m)]
    ensures !t.deleted && t.now == s.now && t.effects == s.effects
    ensures t.deliveries == s.deliveries[id := Mail(m, Automating(0))]
    ensures t.claims == CompleteClaim(s.claims, Normalize(m), id) || (m == "" && t.claims == s.claims)
    ensures After(s, Storing(id, rest)) == After(t, rest)
    ensures IsPromptBut(s, Storing(id, rest), but) <==> IsPromptBut(t, rest, but)
  {
    hide After, IsPromptBut, Normalize, Step, Mail, CompleteClaim, IsPrompt;
    var u, v;
    u, v, t := StoringStates(s, id, m);
    StoringIsPrompt(s, u, v, id);
    AfterCons(v, Complete(id, true), rest, but);
    AfterCons(u, File(id, Returns), [Complete(id, true)] + rest, but);
    AfterCons(s, WriteContent(id, false, INBOX), [File(id, Returns)] + ([Complete(id, true)] + rest), but);
  }

  /** A delivery that claims and stores, one call after the other. */
  lemma Delivers(s: State, id: Id, m: string, rest: seq<Action>) returns (t: State)
    requires id !in s.deliveries && !s.deleted && ClaimMessage(s.rows, s.claims, m, id, s.now).ok
    requires forall i :: IsFresh(With(s, id, Mail(m, Arrived)), i)
    ensures t.rows == s.rows[id := Some(m)] && t.history == s.history[id := Some(m)]
    ensures !t.deleted && t.now == s.now && t.effects == s.effects
    ensures t.deliveries == s.deliveries[id := Mail(m, Automating(0))]
    ensures var claims := if m == "" then s.claims else ClaimMessage(s.rows, s.claims, m, id, s.now).claims;
      t.claims == CompleteClaim(claims, Normalize(m), id) || (m == "" && t.claims == claims)
    ensures After(s, Claiming(id, m, Storing(id, rest))) == After(t, rest)
    ensures IsPromptRun(s, Claiming(id, m, Storing(id, rest))) <==> IsPromptRun(t, rest)
  {
    hide Step, IsPrompt, With, Mail, After, IsPromptBut, Claiming, Storing, ClaimMessage, CompleteClaim;
    hide Normalize, IsFresh;
    var u := ClaimingLeads(s, id, m, Storing(id, rest), None);
    t := StoringLeads(u, id, m, rest, None);
    assert s.deliveries[id := Mail(m, Attaching)][id := Mail(m, Automating(0))]
        == s.deliveries[id := Mail(m, Automating(0))];
  }

  lemma {:induction false} AfterNothing(s: State, but: Option<Action>)
    ensures After(s, []) == Some(s) && IsPromptBut(s, [], but)
  {
  }

  function TwoInTurn(m: string): seq<Action> {
    Claiming(0, m, Storing(0, Claiming(1, m, Storing(1, []))))
  }

  lemma StoredOnceBefore(m: string, rest: seq<Action>) returns (t: State)
    requires !IsCanonical(m)
    ensures var actions := Claiming(0, m, Storing(0, rest));
      After(Init(0), actions) == After(t, rest) && (IsPromptRun(Init(0), actions) <==> IsPromptRun(t, rest))
    ensures t.rows == map[0 := Some(m)] && !t.deleted && 1 !in t.deliveries && IsIdle(t) && t.now == 0
    ensures ClaimMessage(t.rows, t.claims, m, 1, t.now).ok
  {
    FirstWins(Init(0), m, 0);
    UnclaimedFresh(Init(0), 0, m);
    hide Step, IsPrompt, With, MayStore, After, IsPromptBut, Claiming, Storing, ClaimMessage, CompleteClaim;
    hide IsCanonical, Normalize, IsIdle, IsFresh;
    t := Delivers(Init(0), 0, m, rest);
    SecondWins(m, if m == "" then map[] else ClaimMessage(map[], map[], m, 0, 0).claims, t);
    AllIdle(t);
  }

  /** A Message-ID that is not canonical is stored again by the next delivery:
      the row keeps it as received, the claim looks for it normalized. */
  lemma StoredTwice(m: string)
    requires !IsCanonical(m)
    ensures var actions := TwoInTurn(m);
      && IsPromptRun(Init(0), actions) && After(Init(0), actions).Some?
      && RowsOf(After(Init(0), actions).value, m) == {0, 1}
  {
    hide Step, IsPrompt, With, MayStore, After, IsPromptBut, Claiming, Storing, ClaimMessage, Normalize, IsFresh;
    var s := StoredOnceBefore(m, Claiming(1, m, Storing(1, [])));
    SecondStores(s, m);
  }

  lemma {:induction false} SecondStores(s: State, m: string)
    requires s.rows == map[0 := Some(m)] && !s.deleted && 1 !in s.deliveries && IsIdle(s)
    requires ClaimMessage(s.rows, s.claims, m, 1, s.now).ok
    ensures var actions := Claiming(1, m, Storing(1, []));
      && IsPromptRun(s, actions) && After(s, actions).Some?
      && RowsOf(After(s, actions).value, m) == {0, 1}
  {
    IdleFresh(s, 1, m);
    hide Step, IsPrompt, With, MayStore, After, IsPromptBut, Claiming, Storing, ClaimMessage, IsFresh, Mail;
    var t := Delivers(s, 1, m, []);
    AfterNothing(t, None);
    assert t.rows == map[0 := Some(m), 1 := Some(m)];
  }

  lemma FirstWins(s: State, m: string, id: Id)
    requires s.rows == map[] && s.claims == map[]
    ensures ClaimMessage(s.rows, s.claims, m, id, s.now).ok
  {
  }

  lemma AllIdle(s: State)
    requires forall id | id in s.deliveries :: s.deliveries[id].phase.Automating?
    ensures IsIdle(s)
  {
  }

  lemma SecondWins(m: string, claims: Claims, s: State)
    requires !IsCanonical(m) && s.now == 0 && s.rows == map[0 := Some(m)]
    requires claims == if m == "" then map[] else ClaimMessage(map[], map[], m, 0, 0).claims
    requires s.claims == CompleteClaim(claims, Normalize(m), 0) || (m == "" && s.claims == claims)
    ensures ClaimMessage(s.rows, s.claims, m, 1, 0).ok
  {
  }

  const LATE: nat := STALE_MS

  function LateTakeover(m: string): seq<Action> {
    Claiming(0, m, [Tick(LATE)] + Claiming(1, m, Storing(0, Storing(1, []))))
  }

  function Recreated(m: string): seq<Action> {
    Claiming(0, m, [Purge] + ([Revive] + Claiming(1, m, Storing(0, Storing(1, [])))))
  }

  lemma {:induction false} BothStore(s: State, m: string, but: Option<Action>)
    requires s.rows == map[] && !s.deleted && s.deliveries == map[0 := Mail(m, Attaching), 1 := Mail(m, Attaching)]
    ensures var actions := Storing(0, Storing(1, []));
      && After(s, actions).Some? && IsPromptBut(s, actions, but)
      && RowsOf(After(s, actions).value, m) == {0, 1}
  {
    hide After, IsPromptBut, Claiming, Storing, CompleteClaim, Normalize;
    var t := StoringLeads(s, 0, m, Storing(1, []), but);
    var u := StoringLeads(t, 1, m, [], but);
    AfterNothing(u, but);
    assert u.rows == map[0 := Some(m), 1 := Some(m)];
  }

  /** When a claim goes stale under a delivery that is still alive, both store.
      Every other step of the run is prompt. */
  lemma LateTakeoverStoresTwice(m: string)
    ensures After(Init(0), LateTakeover(m)).Some?
    ensures IsPromptBut(Init(0), LateTakeover(m), Some(Claims(1, m != "", true)))
    ensures RowsOf(After(Init(0), LateTakeover(m)).value, m) == {0, 1}
  {
    var but := Some(Claims(1, m != "", true));
    var rest := Claiming(1, m, Storing(0, Storing(1, [])));
    FirstWins(Init(0), m, 0);
    UnclaimedFresh(Init(0), 0, m);
    hide With, MayStore, After, IsPromptBut, Claiming, Storing, IsFresh, Mail, Normalize;
    var s := ClaimingLeads(Init(0), 0, m, [Tick(LATE)] + rest, but);
    var t := s.(now := s.now + LATE);
    AfterCons(s, Tick(LATE), rest, but);
    StaleWins(t, m);
    hide ClaimMessage;
    var u := ClaimingLeads(t, 1, m, Storing(0, Storing(1, [])), but);
    BothStore(u, m, but);
  }

  lemma StaleWins(s: State, m: string)
    requires s.rows == map[] && s.now == LATE
    requires s.claims == if m == "" then map[] else ClaimMessage(map[], map[], m, 0, 0).claims
    ensures ClaimMessage(s.rows, s.claims, m, 1, s.now).ok
  {
    hide Normalize;
  }

  /** A purge wipes the claims: when the mailbox is made anew while a delivery
      from before is still under way, both store, though every claim is fresh. */
  lemma RecreatedStoresTwice(m: string)
    ensures After(Init(0), Recreated(m)).Some?
    ensures IsPromptBut(Init(0), Recreated(m), Some(Revive))
    ensures RowsOf(After(Init(0), Recreated(m)).value, m) == {0, 1}
  {
    var but := Some(Revive);
    var rest := Claiming(1, m, Storing(0, Storing(1, [])));
    FirstWins(Init(0), m, 0);
    UnclaimedFresh(Init(0), 0, m);
    hide With, MayStore, After, IsPromptBut, Claiming, Storing, IsFresh, Mail, Normalize;
    var s := ClaimingLeads(Init(0), 0, m, [Purge] + ([Revive] + rest), but);
    PurgeAndRevive(s, rest);
    var u := s.(deleted := false, rows := map[], claims := map[]);
    FirstWins(u, m, 1);
    UnclaimedFresh(u, 1, m);
    hide ClaimMessage;
    var v := ClaimingLeads(u, 1, m, Storing(0, Storing(1, [])), but);
    BothStore(v, m, but);
  }

  lemma PurgeSteps(s: State)
    ensures Step(s, Purge) == Some(s.(deleted := true, rows := map[], claims := map[])) && IsPrompt(s, Purge)
    ensures Step(s, Revive) == Some(s.(deleted := false))
  {
  }

  lemma {:induction false} PurgeAndRevive(s: State, rest: seq<Action>)
    ensures var t := s.(deleted := false, rows := map[], claims := map[]);
      && After(s, [Purge] + ([Revive] + rest)) == After(t, rest)
      && (IsPromptBut(s, [Purge] + ([Revive] + rest), Some(Revive)) <==> IsPromptBut(t, rest, Some(Revive)))
  {
    hide *;
    var u := s.(deleted := true, rows := map[], claims := map[]);
    PurgeSteps(s);
    PurgeSteps(u);
    AfterCons(s, Purge, [Revive] + rest, Some(Revive));
    AfterCons(u, Revive, rest, Some(Revive));
  }

  // ---- A deleted message that is delivered again

  function StartsForward(id: Id, rest: seq<Action>): seq<Action> {
    [Start(id, false)] + rest
  }

  function Redelivered(m: string): seq<Action> {
    Claiming(0, m, Storing(0, StartsForward(0, [DeleteRow(0)] +
    Claiming(1, m, Storing(1, StartsForward(1, []))))))
  }

  lemma {:induction false} ForwardLeads(s: State, id: Id, m: string, rest: seq<Action>)
    requires id in s.deliveries && s.deliveries[id] == Mail(m, Automating(0))
    ensures var t := s.(effects := s.effects + [Started(id, Forward)],
                        deliveries := s.deliveries[id := Mail(m, Automating(1))]);
      && After(s, StartsForward(id, rest)) == After(t, rest)
      && (IsPromptBut(s, StartsForward(id, rest), None) <==> IsPromptBut(t, rest, None))
  {
    hide After, IsPromptBut;
    AfterCons(s, Start(id, false), rest, None);
  }

  lemma CompletedWins(s: State, m: string, claims: Claims)
    requires s.rows == map[] && s.now == 0
    requires claims == if m == "" then map[] else ClaimMessage(map[], map[], m, 0, 0).claims
    requires s.claims == CompleteClaim(claims, Normalize(m), 0) || (m == "" && s.claims == claims)
    ensures ClaimMessage(s.rows, s.claims, m, 1, 0).ok
  {
    hide Normalize;
  }

  /** Once a row is deleted its Message-ID may be delivered again, and the forward
      starts a second time: in a prompt run, for every Message-ID. */
  lemma RedeliveredRepeats(m: string)
    ensures var actions := Redelivered(m);
      && IsPromptRun(Init(0), actions) && After(Init(0), actions).Some?
      && var s := After(Init(0), actions).value;
      && s.effects == [Started(0, Forward), Started(1, Forward)]
      && s.history == map[0 := Some(m), 1 := Some(m)] && s.rows == map[1 := Some(m)]
  {
    hide After, IsPromptBut, Claiming, Storing, StartsForward, Normalize, With, MayStore, Step, IsPrompt, ClaimMessage;
    var r2 := Claiming(1, m, Storing(1, StartsForward(1, [])));
    var s := ForwardedAndGone(m, r2);
    RedeliveredOnce(s, m);
  }

  lemma ForwardAndDelete(s: State, m: string, rest: seq<Action>) returns (t: State)
    requires s.deliveries == map[0 := Mail(m, Automating(0))] && s.rows == map[0 := Some(m)]
    ensures t == s.(effects := s.effects + [Started(0, Forward)], rows := map[],
                    deliveries := map[0 := Mail(m, Automating(1))])
    ensures var actions := StartsForward(0, [DeleteRow(0)] + rest);
      After(s, actions) == After(t, rest) && (IsPromptBut(s, actions, None) <==> IsPromptBut(t, rest, None))
  {
    hide After, IsPromptBut, StartsForward;
    ForwardLeads(s, 0, m, [DeleteRow(0)] + rest);
    var u := s.(effects := s.effects + [Started(0, Forward)], deliveries := s.deliveries[0 := Mail(m, Automating(1))]);
    AfterCons(u, DeleteRow(0), rest, None);
    t := u.(rows := map[]);
    assert u.rows - {0} == map[];
    assert s.deliveries[0 := Mail(m, Automating(1))] == map[0 := Mail(m, Automating(1))];
  }

  /** The first delivery, its forward, and the deletion of its row. */
  lemma ForwardedAndGone(m: string, rest: seq<Action>) returns (t: State)
    ensures var actions := Claiming(0, m, Storing(0, StartsForward(0, [DeleteRow(0)] + rest)));
      After(Init(0), actions) == After(t, rest) && (IsPromptRun(Init(0), actions) <==> IsPromptRun(t, rest))
    ensures t.rows == map[] && !t.deleted && t.deliveries == map[0 := Mail(m, Automating(1))] && t.now == 0
    ensures t.effects == [Started(0, Forward)] && t.history == map[0 := Some(m)]
    ensures ClaimMessage(t.rows, t.claims, m, 1, t.now).ok
  {
    FirstWins(Init(0), m, 0);
    UnclaimedFresh(Init(0), 0, m);
    hide Step, IsPrompt, With, MayStore, After, IsPromptBut, Claiming, Storing, StartsForward, ClaimMessage;
    hide CompleteClaim, Normalize, IsFresh;
    var u := Delivers(Init(0), 0, m, StartsForward(0, [DeleteRow(0)] + rest));
    t := ForwardAndDelete(u, m, rest);
    CompletedWins(t, m, if m == "" then map[] else ClaimMessage(map[], map[], m, 0, 0).claims);
  }

  lemma {:induction false} RedeliveredOnce(s: State, m: string)
    requires s.rows == map[] && !s.deleted && s.deliveries == map[0 := Mail(m, Automating(1))]
    requires s.effects == [Started(0, Forward)] && s.history == map[0 := Some(m)]
    requires ClaimMessage(s.rows, s.claims, m, 1, s.now).ok
    ensures var actions := Claiming(1, m, Storing(1, StartsForward(1, [])));
      && IsPromptRun(s, actions) && After(s, actions).Some?
      && var t := After(s, actions).value;
      && t.effects == [Started(0, Forward), Started(1, Forward)]
      && t.history == map[0 := Some(m), 1 := Some(m)] && t.rows == map[1 := Some(m)]
  {
    AllIdle(s);
    IdleFresh(s, 1, m);
    hide Step, IsPrompt, With, MayStore, After, IsPromptBut, Claiming, Storing, StartsForward, ClaimMessage;
    hide IsFresh, IsIdle, Mail, CompleteClaim, Normalize;
    var t := Delivers(s, 1, m, StartsForward(1, []));
    ForwardLeads(t, 1, m, []);
    var u := t.(effects := t.effects + [Started(1, Forward)], deliveries := t.deliveries[1 := Mail(m, Automating(1))]);
    AfterNothing(u, None);
    assert u.history == map[0 := Some(m), 1 := Some(m)];
  }

  /** Dedup works for exactly the Message-IDs that normalizing does not change. */
  lemma StoredOnceIff(m: string)
    ensures IsStoredOnce(m) <==> IsCanonical(m)
  {
    if IsCanonical(m) {
      forall now, actions: seq<Action> | IsPromptRun(Init(now), actions) && After(Init(now), actions).Some?
        ensures |RowsOf(After(Init(now), actions).value, m)| <= 1
      {
        var s := After(Init(now), actions).value;
        OneContender(now, actions, s, m);
        RunSafe(Init(now), actions, s);
        RowsContend(s, m);
      }
    } else {
      StoredTwice(m);
      assert |{0, 1}| == 2;
    }
  }

  lemma RowsContend(s: State, m: string)
    requires Safe(s) && |Contenders(s, m)| <= 1
    ensures |RowsOf(s, m)| <= 1
  {
    forall i, j | i in RowsOf(s, m) && j in RowsOf(s, m) ensures i == j {
      assert RowOk(s, i) && RowOk(s, j);
      assert i in Contenders(s, m) && j in Contenders(s, m);
      if i != j {
        assert {i, j} <= Contenders(s, m);
        SubsetSize({i, j}, Contenders(s, m));
      }
    }
    AtMostOneOf(RowsOf(s, m));
  }

  lemma SubsetSize(a: set<Id>, b: set<Id>)
    requires a <= b
    ensures |a| <= |b|
  {
    assert b == a + (b - a);
  }

  /** For a header: the mail of it is stored once in every prompt run exactly when
      the header is clean; any other header is stored twice by two deliveries. */
  lemma HeaderStoredOnceIff(header: string)
    requires header != ""
    ensures OriginalMessageId(header).Some?
    ensures IsStoredOnce(OriginalMessageId(header).value) <==> IsCleanHeader(header)
  {
    StoredOnceIff(ExtractMsgId(header));
    ExtractedCanonicalIff(header);
    hide IsStoredOnce, IsCleanHeader, IsCanonical, ExtractMsgId;
  }

  /** `<<a@b>` is one that is stored twice. */
  lemma DoubledBracketStoredTwice()
    ensures OriginalMessageId(DOUBLED) == Some("<a@b")
    ensures var actions := TwoInTurn("<a@b");
      && IsPromptRun(Init(0), actions) && After(Init(0), actions).Some?
      && RowsOf(After(Init(0), actions).value, "<a@b") == {0, 1}
  {
    DoubledBracket();
    ExtractedCanonicalIff(DOUBLED);
    hide IsCanonical, ExtractMsgId, IsCleanHeader;
    StoredTwice("<a@b");
  }
}
