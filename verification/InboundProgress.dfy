/** What inbound delivery achieves: where a delivery gets to when its calls are
    answered in a given way, from any state. */
module InboundProgress {
  import opened Strings
  import opened Folders
  import opened InboundClaims
  import opened InboundDelivery

  // ---- Runs, action by action

  lemma {:induction false} AfterOne(s: State, a: Action, t: State, rest: seq<Action>)
    requires Step(s, a) == Some(t)
    ensures After(s, [a] + rest) == After(t, rest)
  {
    hide Step;
    assert ([a] + rest)[1..] == rest;
  }

  lemma {:induction false} AfterNone(s: State, a: Action, rest: seq<Action>)
    requires Step(s, a).None?
    ensures After(s, [a] + rest).None?
  {
    hide Step;
  }

  lemma {:induction false} Stays(s: State)
    ensures After(s, []) == Some(s)
  {
  }

  lemma {:induction false} AfterConcat(s: State, a: seq<Action>, t: State, b: seq<Action>)
    requires After(s, a) == Some(t)
    ensures After(s, a + b) == After(t, b)
    decreases |a|
  {
    hide Step;
    if a == [] {
      assert a + b == b;
    } else {
      assert (a + b)[1..] == a[1..] + b;
      AfterConcat(Step(s, a[0]).value, a[1..], t, b);
    }
  }

  lemma {:induction false} AfterTwo(s: State, a: Action, t: State, b: Action, u: State)
    requires Step(s, a) == Some(t) && Step(t, b) == Some(u)
    ensures After(s, [a, b]) == Some(u)
  {
    hide Step;
    assert [a, b] == [a] + ([b] + []);
    AfterOne(s, a, t, [b] + []);
    AfterOne(t, b, u, []);
  }

  lemma {:induction false} AfterThree(s: State, a: Action, t: State, b: Action, u: State, c: Action, v: State)
    requires Step(s, a) == Some(t) && Step(t, b) == Some(u) && Step(u, c) == Some(v)
    ensures After(s, [a, b, c]) == Some(v)
  {
    hide Step;
    AfterTwo(t, b, u, c, v);
    assert [a, b, c] == [a] + [b, c];
    AfterOne(s, a, t, [b, c]);
  }

  predicate IsAt(s: State, id: Id, p: Phase) {
    id in s.deliveries && s.deliveries[id].phase == p
  }

  /** The state with delivery `id` in phase `p`. */
  function Moved(s: State, id: Id, p: Phase): State
    requires id in s.deliveries
  {
    s.(deliveries := s.deliveries[id := s.deliveries[id].(phase := p)])
  }

  /** The same with its row stored. */
  function WithRow(s: State, id: Id): State
    requires id in s.deliveries
  {
    s.(rows := s.rows[id := s.deliveries[id].messageId], history := s.history[id := s.deliveries[id].messageId])
  }

  /** The claims once the row of `id` is known to be stored under `key`. */
  function Completed(claims: Claims, key: string, id: Id): Claims {
    if key in claims && claims[key].claimId == id && key != ""
    then claims[key := Claim(id, claims[key].claimedAt, Some(id))] else claims
  }

  lemma MovedAgain(s: State, id: Id, p: Phase, q: Phase)
    requires id in s.deliveries
    ensures Moved(Moved(s, id, p), id, q) == Moved(s, id, q)
    ensures WithRow(Moved(s, id, p), id) == Moved(WithRow(s, id), id, p)
  {
    var d := s.deliveries[id];
    assert s.deliveries[id := d.(phase := p)][id := d.(phase := q)] == s.deliveries[id := d.(phase := q)];
  }

  // ---- Filing

  lemma RowStored(s: State, id: Id, report: bool, folder: string)
    requires !s.deleted && IsAt(s, id, Filing(report, folder))
    ensures Step(s, File(id, Returns)) == Some(Moved(WithRow(s, id), id, Stored(report)))
  {
  }

  /** What the claims become once the row of `id` is stored. */
  function Settled(s: State, id: Id): Claims
    requires id in s.deliveries
  {
    var m := s.deliveries[id].messageId;
    if m.Some? && m.value != "" then Completed(s.claims, Normalize(m.value), id) else s.claims
  }

  lemma ClaimSettled(s: State, id: Id, report: bool)
    requires IsAt(s, id, Stored(report))
    ensures Step(s, Complete(id, true)) ==
      Some(Moved(s, id, if report then Ended(Delivered) else Automating(0)).(claims := Settled(s, id)))
  {
    hide Normalize;
  }

  const NO_FALLBACK: seq<string> := ["inbox", "screener", "screened_out"]

  /** Mail for a folder that is gone is stored in the Inbox after all, completes
      its claim and goes on to its effects: nothing else changes. */
  lemma {:induction false} FallbackStores(s: State, id: Id, folder: string)
    requires !s.deleted && IsAt(s, id, Filing(false, folder)) && folder !in NO_FALLBACK
    ensures After(s, [File(id, FolderMissing), File(id, Returns), Complete(id, true)]) ==
      Some(Moved(WithRow(s, id), id, Automating(0)).(claims := Settled(s, id)))
  {
    var t := Moved(s, id, Filing(false, "inbox"));
    assert Step(s, File(id, FolderMissing)) == Some(t);
    RowStored(t, id, false, "inbox");
    MovedAgain(s, id, Filing(false, "inbox"), Stored(false));
    MovedAgain(WithRow(s, id), id, Filing(false, "inbox"), Stored(false));
    hide Step, Settled;
    var u := Moved(WithRow(s, id), id, Stored(false));
    ClaimSettled(u, id, false);
    MovedAgain(WithRow(s, id), id, Stored(false), Automating(0));
    assert Settled(u, id) == Settled(s, id) by { SettledAlike(s, u, id); }
    var v := Moved(u, id, Automating(0)).(claims := Settled(u, id));
    AfterThree(s, File(id, FolderMissing), t, File(id, Returns), u, Complete(id, true), v);
  }

  lemma SettledAlike(s: State, t: State, id: Id)
    requires id in s.deliveries && id in t.deliveries && t.claims == s.claims
    requires s.deliveries[id].messageId == t.deliveries[id].messageId
    ensures Settled(s, id) == Settled(t, id)
  {
    hide Normalize, Completed;
  }

  lemma FolderGone(s: State, id: Id, report: bool, folder: string)
    requires !s.deleted && IsAt(s, id, Filing(report, folder)) && (report || folder in NO_FALLBACK)
    ensures Step(s, File(id, FolderMissing)) == Some(Moved(s, id, Failing))
  {
  }

  /** From the Inbox, the Screener and Screened Out there is no way to fall back,
      nor for a bounce report: nothing is stored and the delivery gives up. */
  lemma {:induction false} MissingStoresNothing(s: State, id: Id, report: bool, folder: string)
    requires !s.deleted && IsAt(s, id, Filing(report, folder)) && (report || folder in NO_FALLBACK)
    ensures After(s, [File(id, FolderMissing)]) == Some(Moved(s, id, Failing))
  {
    hide Step;
    FolderGone(s, id, report, folder);
    assert [File(id, FolderMissing)] == [File(id, FolderMissing)] + [];
    AfterOne(s, File(id, FolderMissing), Moved(s, id, Failing), []);
  }

  /** The Inbox is tried once: when it is missing too, the delivery gives up. */
  lemma {:induction false} FallbackOnce(s: State, id: Id, folder: string)
    requires !s.deleted && IsAt(s, id, Filing(false, folder)) && folder !in NO_FALLBACK
    ensures After(s, [File(id, FolderMissing), File(id, FolderMissing)]) == Some(Moved(s, id, Failing))
  {
    var t := Moved(s, id, Filing(false, "inbox"));
    assert Step(s, File(id, FolderMissing)) == Some(t);
    hide Step;
    FolderGone(t, id, false, "inbox");
    MovedAgain(s, id, Filing(false, "inbox"), Failing);
    AfterTwo(s, File(id, FolderMissing), t, File(id, FolderMissing), Moved(s, id, Failing));
  }

  /** Any other error gives up at once, wherever the mail was to go. */
  lemma {:induction false} ErrorGivesUp(s: State, id: Id, report: bool, folder: string)
    requires IsAt(s, id, Filing(report, folder))
    ensures After(s, [File(id, Throws)]) == Some(Moved(s, id, Failing))
  {
    assert Step(s, File(id, Throws)) == Some(Moved(s, id, Failing));
    hide Step;
    assert [File(id, Throws)] == [File(id, Throws)] + [];
    AfterOne(s, File(id, Throws), Moved(s, id, Failing), []);
  }

  // ---- From the arrival to the stored row

  function Repeat(a: Action, n: nat): seq<Action> {
    if n == 0 then [] else [a] + Repeat(a, n - 1)
  }

  function AttachmentsOf(id: Id, from: nat, to: nat): set<Blob> {
    set i | from <= i < to :: Blob(id, Attachment(i))
  }

  /** The state after attachments up to `to` are written. */
  function Written(s: State, id: Id, to: nat): State
    requires id in s.deliveries
  {
    var d := s.deliveries[id];
    s.(blobs := s.blobs + AttachmentsOf(id, d.written, to), deliveries := s.deliveries[id := d.(written := to)])
  }

  lemma OneWritten(s: State, id: Id)
    requires IsAt(s, id, Attaching) && s.deliveries[id].written < s.deliveries[id].attachments
    ensures Step(s, WriteAttachment(id)) == Some(Written(s, id, s.deliveries[id].written + 1))
  {
    var w := s.deliveries[id].written;
    assert AttachmentsOf(id, w, w + 1) == {Blob(id, Attachment(w))};
  }

  lemma WrittenOn(s: State, id: Id, k: nat, n: nat)
    requires id in s.deliveries && s.deliveries[id].written <= k <= n
    ensures Written(Written(s, id, k), id, n) == Written(s, id, n)
  {
    var d := s.deliveries[id];
    assert AttachmentsOf(id, d.written, k) + AttachmentsOf(id, k, n) == AttachmentsOf(id, d.written, n);
    assert s.blobs + AttachmentsOf(id, d.written, k) + AttachmentsOf(id, k, n) == s.blobs + AttachmentsOf(id, d.written, n);
    assert s.deliveries[id := d.(written := k)][id := d.(written := n)] == s.deliveries[id := d.(written := n)];
  }

  lemma {:induction false} AllWritten(s: State, id: Id, n: nat)
    requires IsAt(s, id, Attaching) && s.deliveries[id].written + n <= s.deliveries[id].attachments
    ensures After(s, Repeat(WriteAttachment(id), n)) == Some(Written(s, id, s.deliveries[id].written + n))
    decreases n
  {
    hide Step, Written;
    var w := s.deliveries[id].written;
    if n == 0 {
      NothingWritten(s, id);
      Stays(s);
    } else {
      var t := Written(s, id, w + 1);
      OneWritten(s, id);
      StillAttaching(s, id, w + 1);
      AllWritten(t, id, n - 1);
      WrittenOn(s, id, w + 1, w + n);
      AfterOne(s, WriteAttachment(id), t, Repeat(WriteAttachment(id), n - 1));
    }
  }

  lemma NothingWritten(s: State, id: Id)
    requires id in s.deliveries
    ensures Written(s, id, s.deliveries[id].written) == s
  {
    var d := s.deliveries[id];
    assert AttachmentsOf(id, d.written, d.written) == {};
    assert s.deliveries[id := d.(written := d.written)] == s.deliveries;
  }

  lemma StillAttaching(s: State, id: Id, to: nat)
    requires IsAt(s, id, Attaching)
    ensures IsAt(Written(s, id, to), id, Attaching)
    ensures Written(s, id, to).deliveries[id] == s.deliveries[id].(written := to)
  {
  }

  predicate IsPresent(m: Option<string>) {
    m.Some? && m.value != ""
  }

  /** A claim on `key` that would turn another delivery away. */
  predicate IsPending(c: Claim, now: int) {
    c.emailId.None? && now - c.claimedAt < 15 * 60 * 1000
  }

  /** No delivery with Message-ID `m` is stored or under way. */
  predicate MayClaim(s: State, m: Option<string>) {
    IsPresent(m) && Normalize(m.value) != "" ==>
      && (forall id | id in s.rows :: s.rows[id] != Some(Normalize(m.value)))
      && (Normalize(m.value) in s.claims ==> !IsPending(s.claims[Normalize(m.value)], s.now))
  }

  /** Every call answers: to the row, and the completed claim. */
  function Journey(id: Id, m: Option<string>, n: nat, report: bool, folder: string): seq<Action> {
    [Arrive(id, m, n)] + ([Claims(id, IsPresent(m), true)] + (Repeat(WriteAttachment(id), n) +
    ([WriteContent(id, report, folder)] + ([File(id, Returns)] + ([Complete(id, true)] + [])))))
  }

  /** What a delivered mail leaves in the mailbox and the bucket. */
  predicate IsDelivered(s: State, t: State, id: Id, m: Option<string>, n: nat, report: bool) {
    && t.rows == s.rows[id := m] && t.history == s.history[id := m]
    && t.blobs == s.blobs + {Blob(id, Body), Blob(id, Raw)} + AttachmentsOf(id, 0, n)
    && t.landing == s.landing && t.effects == s.effects && t.now == s.now && t.deleted == s.deleted
    && t.deliveries == s.deliveries[id :=
         Delivery(m, n, n, if report then Ended(Delivered) else Automating(0), report, false, false)]
    && (IsPresent(m) && Normalize(m.value) != "" ==>
         Normalize(m.value) in t.claims && t.claims[Normalize(m.value)] == Claim(id, s.now, Some(id)))
  }

  function Fresh(m: Option<string>, n: nat, p: Phase): Delivery {
    Delivery(m, n, 0, p, false, false, false)
  }

  /** After its claim was won. */
  predicate IsClaimed(s: State, t: State, id: Id, m: Option<string>, n: nat) {
    && t == s.(claims := t.claims, deliveries := s.deliveries[id := Fresh(m, n, Attaching)])
    && (IsPresent(m) && Normalize(m.value) != "" ==>
         Normalize(m.value) in t.claims && t.claims[Normalize(m.value)] == Claim(id, s.now, None))
  }

  lemma ClaimWon(s: State, id: Id, m: Option<string>, n: nat) returns (t: State)
    requires id !in s.deliveries && MayClaim(s, m)
    ensures IsClaimed(s, t, id, m, n)
    ensures forall rest: seq<Action> ::
      After(s, [Arrive(id, m, n)] + ([Claims(id, IsPresent(m), true)] + rest)) == After(t, rest)
  {
    hide Normalize, After;
    var u := s.(deliveries := s.deliveries[id := Fresh(m, n, Arrived)]);
    assert Step(s, Arrive(id, m, n)) == Some(u);
    t := Step(u, Claims(id, IsPresent(m), true)).value;
    assert s.deliveries[id := Fresh(m, n, Arrived)][id := Fresh(m, n, Attaching)]
        == s.deliveries[id := Fresh(m, n, Attaching)];
    hide Step;
    forall rest: seq<Action>
      ensures After(s, [Arrive(id, m, n)] + ([Claims(id, IsPresent(m), true)] + rest)) == After(t, rest)
    {
      AfterOne(s, Arrive(id, m, n), u, [Claims(id, IsPresent(m), true)] + rest);
      AfterOne(u, Claims(id, IsPresent(m), true), t, rest);
    }
  }

  lemma ContentWritten(s: State, id: Id, report: bool, folder: string)
    requires IsAt(s, id, Attaching) && s.deliveries[id].written == s.deliveries[id].attachments
    requires report ==> folder == "archive"
    ensures Step(s, WriteContent(id, report, folder)) ==
      Some(s.(blobs := s.blobs + {Blob(id, Body), Blob(id, Raw)},
              deliveries := s.deliveries[id := s.deliveries[id].(phase := Filing(report, folder), report := report)]))
  {
  }

  lemma JourneyEnds(s: State, id: Id, report: bool, folder: string) returns (t: State)
    requires !s.deleted && IsAt(s, id, Attaching) && s.deliveries[id].written == s.deliveries[id].attachments
    requires report ==> folder == "archive"
    ensures After(s, [WriteContent(id, report, folder)] + ([File(id, Returns)] + ([Complete(id, true)] + []))) == Some(t)
    ensures var m, p := s.deliveries[id].messageId, if report then Ended(Delivered) else Automating(0);
      t == s.(rows := s.rows[id := m], history := s.history[id := m], claims := Settled(s, id),
              blobs := s.blobs + {Blob(id, Body), Blob(id, Raw)},
              deliveries := s.deliveries[id := s.deliveries[id].(phase := p, report := report)])
  {
    hide Step, Settled;
    var d := s.deliveries[id];
    var u := s.(blobs := s.blobs + {Blob(id, Body), Blob(id, Raw)},
                deliveries := s.deliveries[id := d.(phase := Filing(report, folder), report := report)]);
    ContentWritten(s, id, report, folder);
    RowStored(u, id, report, folder);
    var v := Moved(WithRow(u, id), id, Stored(report));
    ClaimSettled(v, id, report);
    SettledAlike(s, v, id);
    t := Moved(v, id, if report then Ended(Delivered) else Automating(0)).(claims := Settled(v, id));
    AfterOne(s, WriteContent(id, report, folder), u, [File(id, Returns)] + ([Complete(id, true)] + []));
    AfterOne(u, File(id, Returns), v, [Complete(id, true)] + []);
    AfterOne(v, Complete(id, true), t, []);
    Stays(t);
    JourneyMaps(s, id, report, folder);
  }

  lemma JourneyMaps(s: State, id: Id, report: bool, folder: string)
    requires id in s.deliveries
    ensures var d, p := s.deliveries[id].(report := report), if report then Ended(Delivered) else Automating(0);
      s.deliveries[id := d.(phase := Filing(report, folder))][id := d.(phase := Stored(report))][id := d.(phase := p)]
      == s.deliveries[id := d.(phase := p)]
  {
  }

  /** A delivery all of whose calls are answered is stored, with all its objects
      and a completed claim, however many attachments it has. */
  lemma {:induction false} CompleteJourney(s: State, id: Id, m: Option<string>, n: nat, report: bool, folder: string)
    requires !s.deleted && id !in s.deliveries && MayClaim(s, m) && (report ==> folder == "archive")
    ensures After(s, Journey(id, m, n, report, folder)).Some?
    ensures IsDelivered(s, After(s, Journey(id, m, n, report, folder)).value, id, m, n, report)
  {
    hide Step, After, MayClaim, Normalize, AttachmentsOf, Repeat;
    var last := [WriteContent(id, report, folder)] + ([File(id, Returns)] + ([Complete(id, true)] + []));
    var u := ClaimWon(s, id, m, n);
    AllWritten(u, id, n);
    AfterConcat(u, Repeat(WriteAttachment(id), n), Written(u, id, n), last);
    var t := JourneyEnds(Written(u, id, n), id, report, folder);
    var p := if report then Ended(Delivered) else Automating(0);
    assert s.deliveries[id := Fresh(m, n, Attaching)][id := Fresh(m, n, Attaching).(written := n)]
      [id := Delivery(m, n, n, p, report, false, false)] == s.deliveries[id := Delivery(m, n, n, p, report, false, false)];
    assert s.blobs + AttachmentsOf(id, 0, n) + {Blob(id, Body), Blob(id, Raw)}
        == s.blobs + {Blob(id, Body), Blob(id, Raw)} + AttachmentsOf(id, 0, n);
  }

  // ---- Effects

  /** One effect is started, and the next in turn is `next`. */
  function Begun(s: State, id: Id, effect: Effect, next: nat): State
    requires id in s.deliveries
  {
    Moved(s, id, Automating(next)).(effects := s.effects + [Started(id, effect)])
  }

  lemma EffectStarts(s: State, id: Id)
    ensures IsAt(s, id, Automating(0)) ==> Step(s, Start(id, false)) == Some(Begun(s, id, Forward, 1))
    ensures IsAt(s, id, Automating(0)) ==> Step(s, Start(id, true)) == Some(Begun(s, id, Forward, 2))
    ensures IsAt(s, id, Automating(1)) ==> Step(s, Start(id, false)) == Some(Begun(s, id, AutoReply, 2))
    ensures IsAt(s, id, Automating(2)) ==> Step(s, Start(id, false)) == Some(Begun(s, id, AutoDraft, 3))
    ensures IsAt(s, id, Automating(3)) ==> Step(s, Start(id, false)) == Some(Begun(s, id, Push, 4))
    ensures IsAt(s, id, Automating(4)) ==> Step(s, Skip(id)) == Some(Moved(s, id, Ended(Delivered)))
  {
  }

  lemma EffectSkips(s: State, id: Id, n: nat)
    requires IsAt(s, id, Automating(n)) && n < 4
    ensures Step(s, Skip(id)) == Some(Moved(s, id, Automating(n + 1)))
  {
  }

  /** The effects left from `n` on: each is started, or skipped when it is not in
      `wanted`. */
  function Ending(id: Id, n: nat, wanted: set<nat>): seq<Action>
    requires n <= 4
    decreases 4 - n
  {
    if n == 4 then [Skip(id)] + []
    else [if n in wanted then Start(id, false) else Skip(id)] + Ending(id, n + 1, wanted)
  }

  const IN_ORDER: seq<Effect> := [Forward, AutoReply, AutoDraft, Push]

  function Wanted(id: Id, n: nat, wanted: set<nat>): seq<Started>
    requires n <= 4
    decreases 4 - n
  {
    if n == 4 then []
    else (if n in wanted then [Started(id, IN_ORDER[n])] else []) + Wanted(id, n + 1, wanted)
  }

  function Taken(id: Id, n: nat, wanted: set<nat>): Action {
    if n in wanted then Start(id, false) else Skip(id)
  }

  function Done(id: Id, n: nat, wanted: set<nat>): seq<Started>
    requires n < 4
  {
    if n in wanted then [Started(id, IN_ORDER[n])] else []
  }

  lemma EffectTaken(s: State, id: Id, n: nat, wanted: set<nat>)
    requires n < 4 && IsAt(s, id, Automating(n))
    ensures Step(s, Taken(id, n, wanted)) ==
      Some(Moved(s, id, Automating(n + 1)).(effects := s.effects + Done(id, n, wanted)))
  {
    if n in wanted {
      EffectStarts(s, id);
    } else {
      EffectSkips(s, id, n);
      assert s.effects + [] == s.effects;
    }
    hide Step;
  }

  lemma EndingIs(id: Id, n: nat, wanted: set<nat>)
    requires n < 4
    ensures Ending(id, n, wanted) == [Taken(id, n, wanted)] + Ending(id, n + 1, wanted)
    ensures Wanted(id, n, wanted) == Done(id, n, wanted) + Wanted(id, n + 1, wanted)
  {
  }

  lemma {:induction false} EffectsEnd(s: State, id: Id, wanted: set<nat>)
    requires IsAt(s, id, Automating(4))
    ensures After(s, Ending(id, 4, wanted)) == Some(Moved(s, id, Ended(Delivered)))
    ensures Wanted(id, 4, wanted) == []
  {
    EffectStarts(s, id);
    hide Step;
    AfterOne(s, Skip(id), Moved(s, id, Ended(Delivered)), []);
    Stays(Moved(s, id, Ended(Delivered)));
  }

  /** Whatever effects are wanted, exactly these are started, in the order
      forward, auto-reply, auto-draft, push; then the delivery is over. */
  lemma {:induction false} EffectsInOrder(s: State, id: Id, n: nat, wanted: set<nat>)
    requires n <= 4 && IsAt(s, id, Automating(n))
    ensures After(s, Ending(id, n, wanted)) ==
      Some(Moved(s, id, Ended(Delivered)).(effects := s.effects + Wanted(id, n, wanted)))
    decreases 4 - n
  {
    hide Step, After, Ending, Wanted, Taken, Done;
    if n == 4 {
      EffectsEnd(s, id, wanted);
      assert s.effects + [] == s.effects;
    } else {
      var done, more := Done(id, n, wanted), Wanted(id, n + 1, wanted);
      var t := Moved(s, id, Automating(n + 1)).(effects := s.effects + done);
      EffectTaken(s, id, n, wanted);
      EndingIs(id, n, wanted);
      EffectsInOrder(t, id, n + 1, wanted);
      AfterOne(s, Taken(id, n, wanted), t, Ending(id, n + 1, wanted));
      MovedAgain(s, id, Automating(n + 1), Ended(Delivered));
      assert s.effects + done + more == s.effects + (done + more);
    }
  }

  /** A forward that throws takes the auto-reply with it, and only that. */
  lemma {:induction false} ForwardThrows(s: State, id: Id)
    requires IsAt(s, id, Automating(0))
    ensures After(s, [Start(id, true)] + Ending(id, 2, {2, 3})) ==
      Some(Moved(s, id, Ended(Delivered)).(
        effects := s.effects + [Started(id, Forward), Started(id, AutoDraft), Started(id, Push)]))
  {
    EffectStarts(s, id);
    hide Step;
    var t := Begun(s, id, Forward, 2);
    EffectsInOrder(t, id, 2, {2, 3});
    AfterOne(s, Start(id, true), t, Ending(id, 2, {2, 3}));
    MovedAgain(s, id, Automating(2), Ended(Delivered));
    LastTwo(id);
    assert s.effects + [Started(id, Forward)] + [Started(id, AutoDraft), Started(id, Push)]
        == s.effects + [Started(id, Forward), Started(id, AutoDraft), Started(id, Push)];
  }

  lemma {:induction false} LastTwo(id: Id)
    ensures Wanted(id, 2, {2, 3}) == [Started(id, AutoDraft), Started(id, Push)]
  {
    assert Wanted(id, 4, {2, 3}) == [];
    assert Wanted(id, 3, {2, 3}) == [Started(id, Push)] + Wanted(id, 4, {2, 3});
  }

  // ---- Giving up

  /** The objects a delivery knows of: its contents, and the attachments written. */
  predicate IsKnown(d: Delivery, b: Blob) {
    b.key == Body || b.key == Raw || (b.key.Attachment? && b.key.index < d.written)
  }

  function WithoutObjects(s: State, id: Id): set<Blob>
    requires id in s.deliveries
  {
    set b | b in s.blobs && !(b.id == id && IsKnown(s.deliveries[id], b))
  }

  /** The claims without a pending one of `id` under its key. */
  function Freed(s: State, id: Id): Claims
    requires id in s.deliveries
  {
    var m := s.deliveries[id].messageId;
    var key := if m.Some? then Normalize(m.value) else "";
    if key != "" && key in s.claims && s.claims[key].claimId == id && s.claims[key].emailId.None?
    then s.claims - {key} else s.claims
  }

  function GivenBack(s: State, id: Id): State
    requires id in s.deliveries
  {
    s.(claims := Freed(s, id),
       deliveries := s.deliveries[id := s.deliveries[id].(phase := Cleaning(Thrown), released := true)])
  }

  lemma ClaimFreed(s: State, id: Id)
    requires IsAt(s, id, Failing) && id !in s.rows
    ensures Step(s, Abandon(id)) == Some(GivenBack(s, id))
  {
    hide Normalize;
  }

  lemma ObjectsDeleted(s: State, id: Id, outcome: Outcome)
    requires IsAt(s, id, Cleaning(outcome))
    ensures Step(s, Clean(id)) == Some(Moved(s, id, Ended(outcome)).(blobs := WithoutObjects(s, id)))
  {
    var d := s.deliveries[id];
    assert (set b | b in s.blobs && !(b.id == id && HasKey(d, b.key))) == WithoutObjects(s, id);
  }

  /** A delivery that failed gives its claim back and deletes its objects; the
      mailbox keeps its rows and other claims. */
  lemma {:induction false} GivesUp(s: State, id: Id)
    requires IsAt(s, id, Failing) && id !in s.rows
    ensures After(s, [Abandon(id), Clean(id)]) ==
      Some(s.(claims := Freed(s, id), blobs := WithoutObjects(s, id),
              deliveries := s.deliveries[id := s.deliveries[id].(phase := Ended(Thrown), released := true)]))
  {
    hide Step, Freed;
    var d, t := s.deliveries[id], GivenBack(s, id);
    ClaimFreed(s, id);
    ObjectsDeleted(t, id, Thrown);
    assert WithoutObjects(t, id) == WithoutObjects(s, id);
    assert s.deliveries[id := d.(phase := Cleaning(Thrown), released := true)][id := d.(phase := Ended(Thrown), released := true)]
        == s.deliveries[id := d.(phase := Ended(Thrown), released := true)];
    AfterTwo(s, Abandon(id), t, Clean(id), Moved(t, id, Ended(Thrown)).(blobs := WithoutObjects(t, id)));
  }

  /** A delivery of `m` gave up: a retry with the same Message-ID is stored, at
      once and in full. */
  lemma {:induction false} RetryIsStored(s: State, id: Id, retry: Id, m: Option<string>, n: nat, folder: string)
    requires !s.deleted && IsAt(s, id, Failing) && id !in s.rows && retry !in s.deliveries
    requires s.deliveries[id].messageId == m && IsPresent(m) && Normalize(m.value) != ""
    requires forall i | i in s.rows :: s.rows[i] != Some(Normalize(m.value))
    requires Normalize(m.value) in s.claims ==> s.claims[Normalize(m.value)].claimId == id
    ensures var actions := [Abandon(id), Clean(id)] + Journey(retry, m, n, false, folder);
      && After(s, actions).Some?
      && After(s, actions).value.rows == s.rows[retry := m]
      && IsAt(After(s, actions).value, retry, Automating(0))
  {
    hide Step, After, Normalize, Journey;
    GivesUp(s, id);
    var t := After(s, [Abandon(id), Clean(id)]).value;
    AfterConcat(s, [Abandon(id), Clean(id)], t, Journey(retry, m, n, false, folder));
    hide WithoutObjects;
    CompleteJourney(t, retry, m, n, false, folder);
  }

  predicate AreArchived(s: State) {
    forall i | i in s.deliveries :: IsArchived(s.deliveries[i].phase)
  }

  predicate IsArchived(p: Phase) {
    match p
    case Filing(report, folder) => report ==> folder == "archive"
    case _ => true
  }

  /** Every delivery keeps its phase, or files no report outside the archive. */
  predicate KeepsArchived(s: State, t: Option<State>) {
    t.Some? ==> forall i | i in t.value.deliveries ::
      IsArchived(t.value.deliveries[i].phase)
      || (i in s.deliveries && s.deliveries[i].phase == t.value.deliveries[i].phase)
  }

  lemma MovedArchived(s: State, t: State, id: Id)
    requires id in t.deliveries && t.deliveries == s.deliveries[id := t.deliveries[id]] && IsArchived(t.deliveries[id].phase)
    ensures KeepsArchived(s, Some(t))
  {
    hide IsArchived;
  }

  lemma ClaimArchives(s: State, id: Id, took: bool, answered: bool)
    ensures KeepsArchived(s, ClaimStep(s, id, took, answered))
  {
    hide ClaimMessage, KeepsArchived;
    NothingArchived(s);
    if ClaimStep(s, id, took, answered).Some? {
      MovedArchived(s, ClaimStep(s, id, took, answered).value, id);
    }
  }

  lemma NothingArchived(s: State)
    ensures KeepsArchived(s, None)
  {
  }

  lemma WriteArchives(s: State, id: Id, landed: bool, report: bool, folder: string, done: set<Key>)
    ensures KeepsArchived(s, WriteAttachmentStep(s, id)) && KeepsArchived(s, FailAttachmentStep(s, id, landed))
    ensures KeepsArchived(s, WriteContentStep(s, id, report, folder)) && KeepsArchived(s, FailContentStep(s, id, done))
  {
    hide KeepsArchived, Content;
    NothingArchived(s);
    if WriteAttachmentStep(s, id).Some? {
      MovedArchived(s, WriteAttachmentStep(s, id).value, id);
    }
    if FailAttachmentStep(s, id, landed).Some? {
      MovedArchived(s, FailAttachmentStep(s, id, landed).value, id);
    }
    if WriteContentStep(s, id, report, folder).Some? {
      MovedArchived(s, WriteContentStep(s, id, report, folder).value, id);
    }
    if FailContentStep(s, id, done).Some? {
      MovedArchived(s, FailContentStep(s, id, done).value, id);
    }
  }

  lemma FileArchives(s: State, id: Id, create: Create)
    ensures KeepsArchived(s, FileStep(s, id, create)) && KeepsArchived(s, FailStep(s, id))
  {
    hide KeepsArchived, FallsBack;
    NothingArchived(s);
    if FileStep(s, id, create).Some? {
      MovedArchived(s, FileStep(s, id, create).value, id);
    }
    if FailStep(s, id).Some? {
      MovedArchived(s, FailStep(s, id).value, id);
    }
  }

  lemma AbandonArchives(s: State, id: Id, took: bool)
    ensures KeepsArchived(s, AbandonStep(s, id)) && KeepsArchived(s, AbandonUnansweredStep(s, id, took))
  {
    hide KeepsArchived, AbandonClaim, KeyOf;
    NothingArchived(s);
    if AbandonStep(s, id).Some? {
      MovedArchived(s, AbandonStep(s, id).value, id);
    }
    if AbandonUnansweredStep(s, id, took).Some? {
      MovedArchived(s, AbandonUnansweredStep(s, id, took).value, id);
    }
  }

  lemma CleanArchives(s: State, id: Id, gone: set<Key>)
    ensures KeepsArchived(s, CleanStep(s, id)) && KeepsArchived(s, FailCleanStep(s, id, gone))
  {
    hide KeepsArchived, HasKey;
    NothingArchived(s);
    if CleanStep(s, id).Some? {
      MovedArchived(s, CleanStep(s, id).value, id);
    }
    if FailCleanStep(s, id, gone).Some? {
      MovedArchived(s, FailCleanStep(s, id, gone).value, id);
    }
  }

  lemma EndArchives(s: State, id: Id, took: bool)
    ensures KeepsArchived(s, CompleteStep(s, id, took)) && KeepsArchived(s, StartStep(s, id, took))
    ensures KeepsArchived(s, SkipStep(s, id)) && KeepsArchived(s, CrashStep(s, id))
  {
    hide KeepsArchived, CompleteClaim, Normalize;
    NothingArchived(s);
    if CompleteStep(s, id, took).Some? {
      MovedArchived(s, CompleteStep(s, id, took).value, id);
    }
    if StartStep(s, id, took).Some? {
      MovedArchived(s, StartStep(s, id, took).value, id);
    }
    if SkipStep(s, id).Some? {
      MovedArchived(s, SkipStep(s, id).value, id);
    }
    if CrashStep(s, id).Some? {
      MovedArchived(s, CrashStep(s, id).value, id);
    }
  }

  lemma ArriveArchives(s: State, id: Id, m: Option<string>, n: nat)
    ensures KeepsArchived(s, ArriveStep(s, id, m, n))
  {
    hide KeepsArchived;
    NothingArchived(s);
    if ArriveStep(s, id, m, n).Some? {
      MovedArchived(s, ArriveStep(s, id, m, n).value, id);
    }
  }

  lemma SameDeliveries(s: State, t: Option<State>)
    requires t.Some? ==> t.value.deliveries == s.deliveries
    ensures KeepsArchived(s, t)
  {
    hide IsArchived;
  }

  lemma OthersArchive(s: State, b: Blob, id: Id)
    ensures KeepsArchived(s, LandStep(s, b)) && KeepsArchived(s, DeleteRowStep(s, id)) && KeepsArchived(s, SweepStep(s, b))
  {
    hide KeepsArchived;
    SameDeliveries(s, LandStep(s, b));
    SameDeliveries(s, DeleteRowStep(s, id));
    SameDeliveries(s, SweepStep(s, b));
  }

  lemma FiledInArchive(s: State, a: Action)
    ensures KeepsArchived(s, Step(s, a))
  {
    hide ArriveStep, ClaimStep, WriteAttachmentStep, FailAttachmentStep, WriteContentStep, FailContentStep, FileStep, FailStep,
      AbandonStep, AbandonUnansweredStep, CleanStep, FailCleanStep, CompleteStep, StartStep, SkipStep, CrashStep, LandStep,
      DeleteRowStep, SweepStep, KeepsArchived;
    match a {
      case Arrive(id, m, n) => ArriveArchives(s, id, m, n);
      case Claims(id, took, answered) => ClaimArchives(s, id, took, answered);
      case WriteAttachment(id) => WriteArchives(s, id, false, false, "", {});
      case FailAttachment(id, landed) => WriteArchives(s, id, landed, false, "", {});
      case WriteContent(id, report, folder) => WriteArchives(s, id, false, report, folder, {});
      case FailContent(id, done) => WriteArchives(s, id, false, false, "", done);
      case Fail(id) => FileArchives(s, id, Throws);
      case File(id, create) => FileArchives(s, id, create);
      case Abandon(id) => AbandonArchives(s, id, false);
      case AbandonUnanswered(id, took) => AbandonArchives(s, id, took);
      case Clean(id) => CleanArchives(s, id, {});
      case FailClean(id, gone) => CleanArchives(s, id, gone);
      case Complete(id, took) => EndArchives(s, id, took);
      case Start(id, throws) => EndArchives(s, id, throws);
      case Skip(id) => EndArchives(s, id, false);
      case Crash(id) => EndArchives(s, id, false);
      case Land(b) => OthersArchive(s, b, 0);
      case DeleteRow(id) => OthersArchive(s, Blob(0, Body), id);
      case Sweep(b) => OthersArchive(s, b, 0);
      case Tick(_) => SameDeliveries(s, Step(s, a));
      case Purge => SameDeliveries(s, Step(s, a));
      case Revive => SameDeliveries(s, Step(s, a));
    }
  }

  /** Matched bounce reports are only ever filed in the archive. */
  lemma ReportsArchived(s: State, a: Action)
    requires AreArchived(s) && Step(s, a).Some?
    ensures AreArchived(Step(s, a).value)
  {
    hide Step, IsArchived;
    FiledInArchive(s, a);
  }

  /** Whatever throws before the row is stored, the delivery gives up. */
  lemma {:induction false} AnyFailureGivesUp(s: State, id: Id)
    requires id in s.deliveries && id !in s.rows
    requires s.deliveries[id].phase.Attaching? || s.deliveries[id].phase.Filing?
    ensures After(s, [Fail(id), Abandon(id), Clean(id)]) ==
      Some(s.(claims := Freed(s, id), blobs := WithoutObjects(s, id),
              deliveries := s.deliveries[id := s.deliveries[id].(phase := Ended(Thrown), released := true)]))
  {
    var t := Moved(s, id, Failing);
    assert Step(s, Fail(id)) == Some(t);
    hide Step, Freed, After, WithoutObjects;
    GivesUp(t, id);
    FreedAlike(s, id);
    assert s.deliveries[id := s.deliveries[id].(phase := Failing)][id := s.deliveries[id].(phase := Ended(Thrown), released := true)]
        == s.deliveries[id := s.deliveries[id].(phase := Ended(Thrown), released := true)];
    assert [Fail(id), Abandon(id), Clean(id)] == [Fail(id)] + [Abandon(id), Clean(id)];
    AfterOne(s, Fail(id), t, [Abandon(id), Clean(id)]);
  }

  lemma FreedAlike(s: State, id: Id)
    requires id in s.deliveries
    ensures Freed(Moved(s, id, Failing), id) == Freed(s, id)
    ensures WithoutObjects(Moved(s, id, Failing), id) == WithoutObjects(s, id)
  {
    hide Normalize;
  }

  /** What throws once the row is stored ends the delivery: row, claims, objects
      and effects stay. */
  lemma {:induction false} LateFailureStays(s: State, id: Id)
    requires id in s.deliveries && (s.deliveries[id].phase.Stored? || s.deliveries[id].phase.Automating?)
    ensures After(s, [Fail(id)]) == Some(Moved(s, id, Ended(Thrown)))
  {
    assert Step(s, Fail(id)) == Some(Moved(s, id, Ended(Thrown)));
    hide Step;
    assert [Fail(id)] == [Fail(id)] + [];
    AfterOne(s, Fail(id), Moved(s, id, Ended(Thrown)), []);
  }

  /** A failed write ends the delivery's work; the object may land, now or later. */
  lemma {:induction false} FailedWrite(s: State, id: Id, landed: bool)
    requires IsAt(s, id, Attaching) && s.deliveries[id].written < s.deliveries[id].attachments
    ensures var failed := {Blob(id, Attachment(s.deliveries[id].written))};
      After(s, [FailAttachment(id, landed)]) ==
        Some(s.(blobs := if landed then s.blobs + failed else s.blobs, landing := if landed then s.landing else s.landing + failed,
                deliveries := s.deliveries[id := s.deliveries[id].(phase := Failing, faulty := true)]))
  {
    assert Step(s, FailAttachment(id, landed)).Some?;
    var t := Step(s, FailAttachment(id, landed)).value;
    assert [FailAttachment(id, landed)] == [FailAttachment(id, landed)] + [];
    AfterOne(s, FailAttachment(id, landed), t, []);
  }

  /** When the row was stored although the call failed, giving up finds it: the
      objects stay and the claim is completed, so that nothing is stored again. */
  lemma {:induction false} StoredAfterAll(s: State, id: Id, report: bool, folder: string)
    requires !s.deleted && IsAt(s, id, Filing(report, folder))
    ensures var m := s.deliveries[id].messageId;
      After(s, [File(id, StoresAndThrows), Abandon(id)]) ==
        Some(Moved(WithRow(s, id), id, Ended(Thrown)).(
          claims := if m.Some? then Completed(s.claims, Normalize(Normalize(m.value)), id) else s.claims))
  {
    var t := Moved(WithRow(s, id), id, Failing);
    var m := s.deliveries[id].messageId;
    var u := Moved(WithRow(s, id), id, Ended(Thrown)).(
      claims := if m.Some? then Completed(s.claims, Normalize(Normalize(m.value)), id) else s.claims);
    RowAfterAll(s, id, report, folder);
    RowFound(t, id);
    MovedAgain(WithRow(s, id), id, Failing, Ended(Thrown));
    hide Step, Normalize;
    AfterTwo(s, File(id, StoresAndThrows), t, Abandon(id), u);
  }

  lemma RowAfterAll(s: State, id: Id, report: bool, folder: string)
    requires !s.deleted && IsAt(s, id, Filing(report, folder))
    ensures Step(s, File(id, StoresAndThrows)) == Some(Moved(WithRow(s, id), id, Failing))
  {
  }

  lemma RowFound(s: State, id: Id)
    requires IsAt(s, id, Failing) && id in s.rows
    ensures var m := s.deliveries[id].messageId;
      Step(s, Abandon(id)) == Some(Moved(s, id, Ended(Thrown)).(
        claims := if m.Some? then Completed(s.claims, Normalize(Normalize(m.value)), id) else s.claims))
  {
    NormalNothing();
    hide Normalize;
  }

  lemma NormalNothing()
    ensures Normalize("") == ""
  {
  }

  // ---- Turned away

  /** A Message-ID that is stored or held is turned away before anything is
      written. */
  lemma {:induction false} DuplicateTurnedAway(s: State, id: Id, m: Option<string>, n: nat)
    requires id !in s.deliveries && !MayClaim(s, m)
    ensures var t := After(s, [Arrive(id, m, n), Claims(id, true, true)]);
      && t.Some? && IsAt(t.value, id, Ended(Duplicate))
      && t.value == s.(claims := t.value.claims, deliveries := t.value.deliveries)
      && (forall key | key in t.value.claims :: key in s.claims && t.value.claims[key] == s.claims[key])
      && (forall i | i in s.deliveries :: i in t.value.deliveries && t.value.deliveries[i] == s.deliveries[i])
  {
    hide Normalize;
    var u := s.(deliveries := s.deliveries[id := Fresh(m, n, Arrived)]);
    assert Step(s, Arrive(id, m, n)) == Some(u);
    var t := Step(u, Claims(id, true, true)).value;
    hide Step;
    AfterTwo(s, Arrive(id, m, n), u, Claims(id, true, true), t);
  }

  /** A deleted mailbox stores nothing: the mail is rejected and its objects are
      deleted, whether or not the mailbox answers. */
  lemma {:induction false} DeletedRejects(s: State, id: Id, folder: string, took: bool)
    requires s.deleted && IsAt(s, id, Filing(false, folder))
    ensures After(s, [File(id, Returns)]).None? && After(s, [File(id, StoresAndThrows)]).None?
    ensures var t := After(s, [File(id, Refuses), AbandonUnanswered(id, took), Clean(id)]);
      && t.Some? && IsAt(t.value, id, Ended(Rejected))
      && t.value.rows == s.rows && t.value.blobs == WithoutObjects(s, id)
  {
    hide *;
    DeletedSteps(s, id, folder);
    OneAction(File(id, Returns));
    OneAction(File(id, StoresAndThrows));
    AfterNone(s, File(id, Returns), []);
    AfterNone(s, File(id, StoresAndThrows), []);
    var t := Moved(s, id, Refused);
    MovedIs(s, id, Refused);
    RefusalUnanswered(t, id, took);
    var u := Step(t, AbandonUnanswered(id, took)).value;
    ObjectsDeleted(u, id, Rejected);
    ObjectsAlike(s, t, u, id);
    var v := Moved(u, id, Ended(Rejected)).(blobs := WithoutObjects(u, id));
    MovedIs(u, id, Ended(Rejected));
    AfterThree(s, File(id, Refuses), t, AbandonUnanswered(id, took), u, Clean(id), v);
    PhaseIs(v, id, Ended(Rejected));
  }

  lemma {:induction false} DeletedSteps(s: State, id: Id, folder: string)
    requires s.deleted && IsAt(s, id, Filing(false, folder))
    ensures id in s.deliveries && Step(s, File(id, Refuses)) == Some(Moved(s, id, Refused))
    ensures Step(s, File(id, Returns)).None? && Step(s, File(id, StoresAndThrows)).None?
  {
  }

  lemma {:induction false} OneAction(a: Action)
    ensures [a] == [a] + []
  {
  }

  lemma {:induction false} MovedIs(s: State, id: Id, p: Phase)
    requires id in s.deliveries
    ensures IsAt(Moved(s, id, p), id, p) && Moved(s, id, p).rows == s.rows && Moved(s, id, p).blobs == s.blobs
    ensures id in Moved(s, id, p).deliveries && Moved(s, id, p).deliveries[id].phase == p
  {
  }

  lemma {:induction false} PhaseIs(s: State, id: Id, p: Phase)
    requires id in s.deliveries && s.deliveries[id].phase == p
    ensures IsAt(s, id, p)
  {
  }

  lemma {:induction false} ObjectsAlike(s: State, t: State, u: State, id: Id)
    requires id in s.deliveries && t == Moved(s, id, Refused)
    requires u.blobs == t.blobs && u.deliveries == t.deliveries[id := t.deliveries[id].(phase := Cleaning(Rejected))]
    ensures WithoutObjects(u, id) == WithoutObjects(s, id)
  {
    assert IsKnown(u.deliveries[id], Blob(id, Body)) == IsKnown(s.deliveries[id], Blob(id, Body));
  }

  lemma RefusalUnanswered(s: State, id: Id, took: bool)
    requires IsAt(s, id, Refused)
    ensures var t := Step(s, AbandonUnanswered(id, took));
      t.Some? && IsAt(t.value, id, Cleaning(Rejected)) && t.value.rows == s.rows && t.value.blobs == s.blobs
      && t.value.deliveries == s.deliveries[id := s.deliveries[id].(phase := Cleaning(Rejected))]
  {
    hide Normalize;
  }

  /** A matched bounce report in a deleted mailbox is no rejection: the call throws,
      and without an answer the objects stay. */
  lemma {:induction false} DeletedReportThrows(s: State, id: Id)
    requires s.deleted && IsAt(s, id, Filing(true, "archive"))
    ensures After(s, [File(id, Refuses), AbandonUnanswered(id, false)]) == Some(Moved(s, id, Ended(Thrown)))
  {
    var t := Moved(s, id, Failing);
    assert Step(s, File(id, Refuses)) == Some(t);
    assert Step(t, AbandonUnanswered(id, false)) == Some(Moved(t, id, Ended(Thrown)));
    MovedAgain(s, id, Failing, Ended(Thrown));
    hide Step, After;
    AfterTwo(s, File(id, Refuses), t, AbandonUnanswered(id, false), Moved(s, id, Ended(Thrown)));
  }

  /** Without an answer a delivery that failed keeps its objects: its row may be
      stored. */
  lemma {:induction false} UnansweredKeepsObjects(s: State, id: Id)
    requires IsAt(s, id, Failing)
    ensures After(s, [AbandonUnanswered(id, false)]) == Some(Moved(s, id, Ended(Thrown)))
  {
    assert Step(s, AbandonUnanswered(id, false)) == Some(Moved(s, id, Ended(Thrown)));
    hide Step;
    assert [AbandonUnanswered(id, false)] == [AbandonUnanswered(id, false)] + [];
    AfterOne(s, AbandonUnanswered(id, false), Moved(s, id, Ended(Thrown)), []);
  }
}
