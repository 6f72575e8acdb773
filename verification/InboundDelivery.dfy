/** Inbound delivery into one mailbox (`receiveEmail` from the claim onward and
    `abandonUnstoredInbound` of `workers/index.ts`) as a state machine: any
    number of deliveries run at once, and any call may fail or a delivery crash. */
module InboundDelivery {
  import opened Strings
  import opened Folders
  import opened InboundClaims

  // ---- State

  /** The objects of a delivery in the bucket. */
  datatype Key = Body | Raw | Attachment(index: nat)

  datatype Blob = Blob(id: Id, key: Key)

  /** What a delivery starts once its row is stored, in this order. */
  datatype Effect = Forward | AutoReply | AutoDraft | Push

  function Order(e: Effect): nat {
    match e
    case Forward => 0
    case AutoReply => 1
    case AutoDraft => 2
    case Push => 3
  }

  datatype Started = Started(id: Id, effect: Effect)

  datatype Outcome = Duplicate | Delivered | Thrown | Rejected | Crashed

  datatype Phase =
    | Arrived                                // before the claim
    | Attaching                              // writing attachments
    | Filing(report: bool, folder: string)   // content written, row next
    | Stored(report: bool)                   // row stored, claim to be completed
    | Automating(next: nat)                  // the effects from `next` on
    | Failing                                // about to give the claim back
    | Refused                                // the same, in a deleted mailbox
    | Cleaning(outcome: Outcome)             // about to delete its objects
    | Ended(outcome: Outcome)

  /** `written` attachments are recorded; `released` when the claim was given
      back; `faulty` when a call to the bucket failed. */
  datatype Delivery = Delivery(
    messageId: Option<string>, attachments: nat, written: nat, phase: Phase,
    report: bool, released: bool, faulty: bool)

  /** `landing` holds failed writes that may still land; `history` every row
      ever stored. */
  datatype State = State(
    now: int, deleted: bool, rows: Rows, claims: Claims, deliveries: map<Id, Delivery>,
    blobs: set<Blob>, landing: set<Blob>, effects: seq<Started>, history: Rows)

  function Init(now: int): State {
    State(now, false, map[], map[], map[], {}, {}, [], map[])
  }

  /** May still insert its row. */
  predicate MayStore(p: Phase) {
    p.Attaching? || p.Filing?
  }

  /** The objects `inboundBlobKeys` names. */
  predicate HasKey(d: Delivery, k: Key) {
    k.Attachment? ==> k.index < d.written
  }

  // ---- Steps

  /** What a call of `createEmail` does; it may store and then throw. */
  datatype Create = Returns | StoresAndThrows | FolderMissing | Refuses | Throws

  datatype Action =
    | Arrive(id: Id, messageId: Option<string>, attachments: nat)
    | Claims(id: Id, took: bool, answered: bool)
    | WriteAttachment(id: Id)
    | FailAttachment(id: Id, landed: bool)
    | WriteContent(id: Id, report: bool, folder: string)
    | FailContent(id: Id, done: set<Key>)
    | Fail(id: Id)
    | File(id: Id, create: Create)
    | Abandon(id: Id)
    | AbandonUnanswered(id: Id, took: bool)
    | Clean(id: Id)
    | FailClean(id: Id, gone: set<Key>)
    | Complete(id: Id, took: bool)
    | Start(id: Id, throws: bool)
    | Skip(id: Id)
    | Crash(id: Id)
    | Tick(ms: nat)
    | Land(blob: Blob)
    | DeleteRow(id: Id)
    | Sweep(blob: Blob)
    | Purge
    | Revive

  /** `shouldFallbackToInbox`, for a missing folder. */
  predicate FallsBack(folder: string) {
    folder != INBOX && folder != SCREENER && folder != SCREENED_OUT
  }

  function With(s: State, id: Id, d: Delivery): State {
    s.(deliveries := s.deliveries[id := d])
  }

  function To(s: State, id: Id, p: Phase): State
    requires id in s.deliveries
  {
    With(s, id, s.deliveries[id].(phase := p))
  }

  /** `originalMessageId` is truthy. */
  predicate IsGiven(messageId: Option<string>) {
    messageId.Some? && messageId.value != ""
  }

  /** Where a delivery is; one that is unknown does nothing. */
  function PhaseOf(s: State, id: Id): Phase {
    if id in s.deliveries then s.deliveries[id].phase else Ended(Duplicate)
  }

  function ArriveStep(s: State, id: Id, messageId: Option<string>, attachments: nat): Option<State> {
    if id in s.deliveries then None
    else Some(With(s, id, Delivery(messageId, attachments, 0, Arrived, false, false, false)))
  }

  /** Claims before anything is written. A call that throws ends the delivery,
      whether or not the claim was taken. */
  function ClaimStep(s: State, id: Id, took: bool, answered: bool): Option<State> {
    if !PhaseOf(s, id).Arrived? then None else
    var m := s.deliveries[id].messageId;
    if !IsGiven(m) then if answered && !took then Some(To(s, id, Attaching)) else None
    else
      var c := ClaimMessage(s.rows, s.claims, m.value, id, s.now);
      if !answered then Some(To(s.(claims := if took then c.claims else s.claims), id, Ended(Thrown)))
      else if took then Some(To(s.(claims := c.claims), id, if c.ok then Attaching else Ended(Duplicate)))
      else None
  }

  function WriteAttachmentStep(s: State, id: Id): Option<State> {
    if !PhaseOf(s, id).Attaching? || s.deliveries[id].written >= s.deliveries[id].attachments then None else
    var d := s.deliveries[id];
    Some(With(s.(blobs := s.blobs + {Blob(id, Attachment(d.written))}), id, d.(written := d.written + 1)))
  }

  /** A write that throws may have landed, or land later. */
  function FailAttachmentStep(s: State, id: Id, landed: bool): Option<State> {
    if !PhaseOf(s, id).Attaching? || s.deliveries[id].written >= s.deliveries[id].attachments then None else
    var d := s.deliveries[id];
    var b := {Blob(id, Attachment(d.written))};
    var t := if landed then s.(blobs := s.blobs + b) else s.(landing := s.landing + b);
    Some(With(t, id, d.(phase := Failing, faulty := true)))
  }

  function Content(id: Id): set<Blob> {
    {Blob(id, Body), Blob(id, Raw)}
  }

  /** Both contents are written; then the mail is a matched bounce report, filed
      in the archive, or goes to the folder decided for it. */
  function WriteContentStep(s: State, id: Id, report: bool, folder: string): Option<State> {
    if !PhaseOf(s, id).Attaching? || s.deliveries[id].written != s.deliveries[id].attachments then None
    else if report && folder != ARCHIVE then None
    else
      var d := s.deliveries[id].(phase := Filing(report, folder), report := report);
      Some(With(s.(blobs := s.blobs + Content(id)), id, d))
  }

  function FailContentStep(s: State, id: Id, done: set<Key>): Option<State> {
    if !PhaseOf(s, id).Attaching? || s.deliveries[id].written != s.deliveries[id].attachments then None else
    var now := set b | b in Content(id) && b.key in done;
    var t := s.(blobs := s.blobs + now, landing := s.landing + (Content(id) - now));
    Some(With(t, id, s.deliveries[id].(phase := Failing, faulty := true)))
  }

  /** Any other call inside the `try` throws. */
  function FailStep(s: State, id: Id): Option<State> {
    var p := PhaseOf(s, id);
    if !MayStore(p) && !p.Stored? && !p.Automating? then None
    else Some(To(s, id, if MayStore(p) then Failing else Ended(Thrown)))
  }

  predicate IsStoring(create: Create) {
    create.Returns? || create.StoresAndThrows?
  }

  /** Where a call of `createEmail` leads, with the fallback to the Inbox. A
      deleted mailbox refuses, and only a deleted one does. */
  function AfterCreate(deleted: bool, report: bool, folder: string, create: Create): Option<Phase> {
    match create
    case Returns => if deleted then None else Some(Stored(report))
    case StoresAndThrows => if deleted then None else Some(Failing)
    case FolderMissing =>
      if deleted then None
      else if !report && FallsBack(folder) then Some(Filing(false, INBOX))
      else Some(Failing)
    case Refuses => if !deleted then None else if report then Some(Failing) else Some(Refused)
    case Throws => Some(Failing)
  }

  function FileStep(s: State, id: Id, create: Create): Option<State> {
    if !PhaseOf(s, id).Filing? then None else
    var d := s.deliveries[id];
    match AfterCreate(s.deleted, d.phase.report, d.phase.folder, create)
    case None => None
    case Some(p) => Some(To(if IsStoring(create) then Insert(s, id, d.messageId) else s, id, p))
  }

  function Insert(s: State, id: Id, messageId: Option<string>): State {
    s.(rows := s.rows[id := messageId], history := s.history[id := messageId])
  }

  function OutcomeOf(p: Phase): Outcome {
    if p.Refused? then Rejected else Thrown
  }

  function Abandoned(s: State, id: Id): State
    requires id in s.deliveries
  {
    s.(claims := AbandonClaim(s.rows, s.claims, KeyOf(s.deliveries[id].messageId), id))
  }

  /** The mailbox answers whether the row is stored; the objects are deleted only
      if it is not. */
  function AbandonStep(s: State, id: Id): Option<State> {
    if !PhaseOf(s, id).Failing? && !PhaseOf(s, id).Refused? then None else
    var d := s.deliveries[id];
    var outcome := OutcomeOf(d.phase);
    if id in s.rows then Some(To(Abandoned(s, id), id, Ended(outcome)))
    else Some(With(Abandoned(s, id), id, d.(phase := Cleaning(outcome), released := true)))
  }

  /** No answer: the objects stay unless the mailbox refused the row. */
  function AbandonUnansweredStep(s: State, id: Id, took: bool): Option<State> {
    if !PhaseOf(s, id).Failing? && !PhaseOf(s, id).Refused? then None else
    var t := if took then Abandoned(s, id) else s;
    var p := s.deliveries[id].phase;
    Some(To(t, id, if p.Refused? then Cleaning(Rejected) else Ended(Thrown)))
  }

  function CleanStep(s: State, id: Id): Option<State> {
    if !PhaseOf(s, id).Cleaning? then None else
    var d := s.deliveries[id];
    var left := set b | b in s.blobs && !(b.id == id && HasKey(d, b.key));
    Some(To(s.(blobs := left), id, Ended(d.phase.outcome)))
  }

  function FailCleanStep(s: State, id: Id, gone: set<Key>): Option<State> {
    if !PhaseOf(s, id).Cleaning? then None else
    var d := s.deliveries[id];
    var left := set b | b in s.blobs && !(b.id == id && HasKey(d, b.key) && b.key in gone);
    Some(With(s.(blobs := left), id, d.(phase := Ended(d.phase.outcome), faulty := true)))
  }

  /** The claim is completed as well as may be; a bounce report ends there. */
  function CompleteStep(s: State, id: Id, took: bool): Option<State> {
    if !PhaseOf(s, id).Stored? then None else
    var d := s.deliveries[id];
    var t := if took && IsGiven(d.messageId)
      then s.(claims := CompleteClaim(s.claims, Normalize(d.messageId.value), id)) else s;
    Some(To(t, id, if d.phase.report then Ended(Delivered) else Automating(0)))
  }

  function EffectAt(n: nat): Effect
    requires n < 4
  {
    if n == 0 then Forward else if n == 1 then AutoReply else if n == 2 then AutoDraft else Push
  }

  /** Starts the next effect. A forward that throws is logged and takes the
      auto-reply with it. */
  function StartStep(s: State, id: Id, throws: bool): Option<State> {
    if !PhaseOf(s, id).Automating? || PhaseOf(s, id).next >= 4 then None else
    var n := s.deliveries[id].phase.next;
    var t := s.(effects := s.effects + [Started(id, EffectAt(n))]);
    Some(To(t, id, Automating(if throws && n == 0 then 2 else n + 1)))
  }

  function SkipStep(s: State, id: Id): Option<State> {
    if !PhaseOf(s, id).Automating? then None else
    var n := s.deliveries[id].phase.next;
    Some(To(s, id, if n < 4 then Automating(n + 1) else Ended(Delivered)))
  }

  function CrashStep(s: State, id: Id): Option<State> {
    if PhaseOf(s, id).Ended? then None else Some(To(s, id, Ended(Crashed)))
  }

  function LandStep(s: State, b: Blob): Option<State> {
    if b !in s.landing then None
    else Some(s.(blobs := s.blobs + {b}, landing := s.landing - {b}))
  }

  /** The row goes first, its objects are queued. */
  function DeleteRowStep(s: State, id: Id): Option<State> {
    if id !in s.rows then None else Some(s.(rows := s.rows - {id}))
  }

  /** An object of a row that is gone is deleted. */
  function SweepStep(s: State, b: Blob): Option<State> {
    if b.id in s.history && b.id !in s.rows then Some(s.(blobs := s.blobs - {b})) else None
  }

  function Step(s: State, a: Action): Option<State> {
    match a
    case Arrive(id, messageId, attachments) => ArriveStep(s, id, messageId, attachments)
    case Claims(id, took, answered) => ClaimStep(s, id, took, answered)
    case WriteAttachment(id) => WriteAttachmentStep(s, id)
    case FailAttachment(id, landed) => FailAttachmentStep(s, id, landed)
    case WriteContent(id, report, folder) => WriteContentStep(s, id, report, folder)
    case FailContent(id, done) => FailContentStep(s, id, done)
    case Fail(id) => FailStep(s, id)
    case File(id, create) => FileStep(s, id, create)
    case Abandon(id) => AbandonStep(s, id)
    case AbandonUnanswered(id, took) => AbandonUnansweredStep(s, id, took)
    case Clean(id) => CleanStep(s, id)
    case FailClean(id, gone) => FailCleanStep(s, id, gone)
    case Complete(id, took) => CompleteStep(s, id, took)
    case Start(id, throws) => StartStep(s, id, throws)
    case Skip(id) => SkipStep(s, id)
    case Crash(id) => CrashStep(s, id)
    case Tick(ms) => Some(s.(now := s.now + ms))
    case Land(b) => LandStep(s, b)
    case DeleteRow(id) => DeleteRowStep(s, id)
    case Sweep(b) => SweepStep(s, b)
    case Purge => Some(s.(deleted := true, rows := map[], claims := map[]))
    case Revive => Some(s.(deleted := false))
  }

  /** The state after `actions`, each of which must be possible. */
  function After(s: State, actions: seq<Action>): Option<State>
    decreases |actions|
  {
    if actions == [] then Some(s)
    else
      match Step(s, actions[0])
      case None => None
      case Some(t) => After(t, actions[1..])
  }
}
