/** Whole schedules of ticks, each stopped anywhere. */
module ExtractorRuns {
  import opened Wrappers
  import opened Blanks
  import opened Extractor

  // ---- What the extractor writes ----

  predicate Squeezed(c: Claim) {
    Squeeze(c.text) == c.text
  }

  /** What validateClaims returns: a confidence may be NaN. */
  ghost predicate Vetted(config: Config, claims: seq<Claim>) {
    && ValidClaims(config, claims)
    && forall c | c in claims :: Squeezed(c) && (c.confidence.NotANumber? || InRange(c.confidence))
  }

  /** What the state file then holds. */
  ghost predicate Kept(config: Config, claims: seq<Claim>) {
    && ValidClaims(config, claims)
    && forall c | c in claims :: Squeezed(c) && (c.confidence.Absent? || InRange(c.confidence))
  }

  /** The records of an entry fit its claims and its keys, whatever their scores. */
  ghost predicate Fitting(config: Config, f: InFlight) {
    && |f.records| == |f.keys|
    && (forall i, j | 0 <= i < j < |f.keys| :: f.keys[i] != f.keys[j])
    && forall i | 0 <= i < |f.records| ::
         && f.records[i].claim in f.claims && f.records[i].identity == f.identity
         && f.keys[i] == KeyOf(config, f.identity, f.revision, f.records[i].claim.text)
  }

  ghost predicate OwnEntry(config: Config, f: InFlight) {
    Kept(config, f.claims) && Fitting(config, f) && f.day == ""
  }

  /** What every state on disk satisfies. */
  ghost predicate Own(config: Config, state: State) {
    state.inFlight.Some? && !state.inFlight.value.stage.ModelPending? ==> OwnEntry(config, state.inFlight.value)
  }

  predicate AllScored(f: InFlight) {
    forall i | 0 <= i < |f.records| :: Scored(f.records[i])
  }

  lemma ValidatedIsVetted(config: Config, claims: seq<Claim>)
    requires ValidClaims(config, claims)
    ensures Vetted(config, Validated(config, claims))
  {
    var r := Validated(config, claims);
    forall i | 0 <= i < |r| ensures Squeeze(r[i].text) == r[i].text {
      SqueezeIdempotent(claims[i].text);
    }
  }

  lemma SavedIsKept(config: Config, claims: seq<Claim>)
    requires Vetted(config, claims)
    ensures Kept(config, SavedClaims(claims))
  {
    var r := SavedClaims(claims);
    assert forall i | 0 <= i < |claims| :: claims[i] in claims;
    assert forall i | 0 <= i < |r| :: r[i] == SavedClaim(claims[i]);
  }

  /** Reading the claims back gives each NaN the default. */
  lemma KeptAgain(config: Config, claims: seq<Claim>)
    requires Kept(config, claims)
    ensures var again := Validated(config, claims);
      && |again| == |claims|
      && (forall i | 0 <= i < |claims| ::
            again[i] == if claims[i].confidence.Absent? then claims[i].(confidence := Number(0.5)) else claims[i])
      && Kept(config, again) && Vetted(config, again) && SavedClaims(again) == again
  {
    var again := Validated(config, claims);
    forall i | 0 <= i < |claims|
      ensures again[i] == if claims[i].confidence.Absent? then claims[i].(confidence := Number(0.5)) else claims[i]
    {
      assert claims[i] in claims;
    }
    ValidatedIsVetted(config, claims);
    assert forall c | c in again :: InRange(c.confidence);
  }

  /** Among the claims read back are exactly the kept ones that have a score. */
  lemma KeptInAgain(config: Config, claims: seq<Claim>, c: Claim)
    requires Kept(config, claims) && c in claims && InRange(c.confidence)
    ensures c in Validated(config, claims)
  {
    KeptAgain(config, claims);
    var i :| 0 <= i < |claims| && claims[i] == c;
    assert Validated(config, claims)[i] == c;
  }

  /** The persisted records pass their validation if and only if all of them have a score. */
  lemma AcceptedIffScored(config: Config, f: InFlight)
    requires OwnEntry(config, f)
    ensures ValidRecords(config, f, Validated(config, f.claims)) <==> AllScored(f)
  {
    if AllScored(f) {
      forall i | 0 <= i < |f.records| ensures f.records[i].claim in Validated(config, f.claims) {
        assert Scored(f.records[i]);
        KeptInAgain(config, f.claims, f.records[i].claim);
      }
    }
  }

  lemma {:induction false} SharedIff(config: Config, candidates: seq<Claim>)
    ensures forall c :: c in SharedClaims(config, candidates) <==> c in candidates && config.shared(c.text)
  {
    if candidates != [] {
      assert candidates == [candidates[0]] + candidates[1..];
      SharedIff(config, candidates[1..]);
    }
  }

  lemma {:induction false} SharedStayValid(config: Config, candidates: seq<Claim>)
    requires ValidClaims(config, candidates)
    ensures ValidClaims(config, SharedClaims(config, candidates))
    ensures |SharedClaims(config, candidates)| <= |candidates|
  {
    if candidates != [] {
      var head, tail := candidates[0], candidates[1..];
      assert forall i | 0 <= i < |tail| :: tail[i] == candidates[i + 1];
      SharedStayValid(config, tail);
      SharedIff(config, tail);
      var rest := SharedClaims(config, tail);
      forall k | 0 <= k < |rest|
        ensures config.normalize(Squeeze(rest[k].text)) != config.normalize(Squeeze(head.text))
      {
        assert rest[k] in rest && rest[k] in tail;
      }
    }
  }

  lemma PaidAreVetted(config: Config, inputs: Inputs)
    requires ValidClaims(config, inputs.model)
    ensures Vetted(config, PaidClaims(config, inputs))
    ensures forall c :: c in PaidClaims(config, inputs) <==>
      c in Validated(config, inputs.model) && config.shared(c.text)
  {
    ValidatedIsVetted(config, inputs.model);
    SharedStayValid(config, Validated(config, inputs.model));
    SharedIff(config, Validated(config, inputs.model));
  }

  ghost predicate Unlike(config: Config, claims: seq<Claim>) {
    forall i, j | 0 <= i < j < |claims| :: config.normalize(claims[i].text) != config.normalize(claims[j].text)
  }

  /** The claims of the records, no two of them alike. */
  ghost predicate Drawn(config: Config, records: seq<MemoryRecord>, claims: seq<Claim>, identity: string) {
    && (forall k | 0 <= k < |records| :: records[k].claim in claims && records[k].identity == identity)
    && (forall i, j | 0 <= i < j < |records| ::
          config.normalize(records[i].claim.text) != config.normalize(records[j].claim.text))
  }

  /** The records are about exactly the claims that are not known. */
  lemma {:induction false} BuiltIffUnknown(claims: seq<Claim>, s: Session, inputs: Inputs)
    requires inputs.triage.Some?
    ensures forall c | c in claims && !inputs.known(c.text) ::
      MemoryRecord(c, s.identity, inputs.triage.value, inputs.now) in BuildRecords(claims, s, inputs)
    ensures forall r | r in BuildRecords(claims, s, inputs) ::
      r.claim in claims && r.identity == s.identity && !inputs.known(r.claim.text)
  {
    if claims != [] {
      var tail := claims[1..];
      assert claims == [claims[0]] + tail;
      BuiltIffUnknown(tail, s, inputs);
    }
  }

  lemma {:induction false} BuiltAreDrawn(config: Config, claims: seq<Claim>, s: Session, inputs: Inputs)
    requires Unlike(config, claims) && inputs.triage.Some?
    ensures Drawn(config, BuildRecords(claims, s, inputs), claims, s.identity)
  {
    BuiltIffUnknown(claims, s, inputs);
    var records := BuildRecords(claims, s, inputs);
    assert forall k | 0 <= k < |records| :: records[k] in records;
    if claims != [] {
      var tail := claims[1..];
      assert forall i | 0 <= i < |tail| :: tail[i] == claims[i + 1];
      BuiltAreDrawn(config, tail, s, inputs);
      var rest := BuildRecords(tail, s, inputs);
      forall k | 0 <= k < |rest|
        ensures config.normalize(rest[k].claim.text) != config.normalize(claims[0].text)
      {
        assert rest[k].claim in tail;
      }
    }
  }

  lemma VettedAreUnlike(config: Config, claims: seq<Claim>)
    requires Vetted(config, claims)
    ensures Unlike(config, claims)
  {
    assert forall i | 0 <= i < |claims| :: claims[i] in claims;
    assert forall i | 0 <= i < |claims| :: Squeeze(claims[i].text) == claims[i].text;
  }

  /** Records drawn from vetted claims make an entry that the file may hold. */
  lemma EntryIsOwn(config: Config, s: Session, next: Option<string>, claims: seq<Claim>, records: seq<MemoryRecord>)
    requires Vetted(config, claims) && Drawn(config, records, claims, s.identity)
    ensures OwnEntry(config, SavedEntry(ProposingEntry(config, s, next, claims, records)))
  {
    var e := ProposingEntry(config, s, next, claims, records);
    var f := SavedEntry(e);
    SavedIsKept(config, claims);
    forall i | 0 <= i < |f.records| ensures f.records[i].claim in f.claims {
      var j :| 0 <= j < |claims| && claims[j] == records[i].claim;
      assert f.claims[j] == SavedClaim(claims[j]);
    }
    hide Kept, ValidClaims;
  }

  /** The entry as a resumed tick persists it again. */
  function Again(config: Config, f: InFlight, next: Option<string>): InFlight {
    f.(cursor := next, claims := Validated(config, f.claims))
  }

  lemma AgainIsSaved(config: Config, f: InFlight, next: Option<string>)
    requires OwnEntry(config, f) && AllScored(f)
    ensures SavedEntry(Again(config, f, next)) == Again(config, f, next)
  {
    hide ValidClaims;
    KeptAgain(config, f.claims);
    assert forall i | 0 <= i < |f.records| :: Scored(f.records[i]);
    assert SavedRecords(f.records) == f.records;
  }

  /** Persisted records that all have a score are taken over as they are. */
  lemma ResumedRecords(config: Config, f: InFlight, s: Session, next: Option<string>)
    requires f.stage.Proposing? && OwnEntry(config, f) && AllScored(f) && Matches(f, s)
    ensures ProposingEntry(config, s, next, Validated(config, f.claims), f.records) == Again(config, f, next)
    ensures Drawn(config, f.records, Validated(config, f.claims), s.identity)
  {
    AcceptedIffScored(config, f);
    assert KeysOf(config, s, f.records) == f.keys;
    hide ValidClaims, Validated, Kept, AllScored;
    assert forall i, j | 0 <= i < j < |f.keys| :: f.keys[i] != f.keys[j];
  }

  /** The record is about the identity and the claim that its key names. */
  predicate Filed(config: Config, p: Proposal) {
    p.record.identity == p.key.identity && config.normalize(p.record.claim.text) == p.key.claim
  }

  ghost predicate AllOwn(config: Config, effects: seq<Effect>) {
    && (forall i | 0 <= i < |effects| && effects[i].Persist? :: Own(config, Saved(effects[i].state)))
    && (forall i | 0 <= i < |effects| && effects[i].Send? :: Filed(config, effects[i].proposal))
  }

  lemma ProposingIsOwn(config: Config, state: State, s: Session, inputs: Inputs, claims: seq<Claim>,
                       records: seq<MemoryRecord>)
    requires Vetted(config, claims) && Drawn(config, records, claims, s.identity)
    ensures AllOwn(config, ProposeEffects(config, state, s, inputs, claims, records))
  {
    EntryIsOwn(config, s, inputs.next, claims, records);
    var f := ProposingEntry(config, s, inputs.next, claims, records);
    var effects := ProposeEffects(config, state, s, inputs, claims, records);
    forall i | 0 <= i < |effects| && effects[i].Send? ensures Filed(config, effects[i].proposal) {
      SentIs(config, state, s, inputs, claims, records, i);
      assert records[i - 1].identity == s.identity;
    }
    ProposeShape(config, state, s, inputs, claims, records);
    hide Vetted, OwnEntry, ProposeEffects, Filed, Drawn, Proposals, SavedEntry, ProposingEntry;
    forall k | 0 < k < |effects| - 1 ensures effects[k].Send? {
      assert effects[(k - 1) + 1] == Send(Proposals(f)[k - 1]);
    }
  }

  /** A state that is not pending is read back as it was. */
  lemma OwnIsSaved(config: Config, state: State)
    requires Own(config, state) && (state.inFlight.Some? ==> !state.inFlight.value.stage.ModelPending?)
    ensures Saved(state) == state
  {
    hide ValidClaims;
    if state.inFlight.Some? {
      var f := state.inFlight.value;
      assert forall i | 0 <= i < |f.claims| :: f.claims[i] in f.claims;
      assert SavedClaims(f.claims) == f.claims;
      assert SavedRecords(f.records) == f.records;
    }
  }

  lemma DoneIsOwn(config: Config, s: Session, next: Option<string>, claims: seq<Claim>)
    requires Vetted(config, claims)
    ensures OwnEntry(config, SavedEntry(DoneEntry(s, next, claims)))
  {
    hide Vetted, Kept;
    SavedIsKept(config, claims);
  }

  lemma FreshIsOwn(config: Config, state: State, s: Session, inputs: Inputs)
    requires Own(config, state) && Runnable(config, state) && inputs.triage.Some?
    ensures AllOwn(config, FreshEffects(config, state, s, inputs))
  {
    hide Vetted, OwnEntry, ValidClaims, FreshEffects, ProposeEffects, Drawn, Unlike, PaidClaims, Reserve;
    OwnIsSaved(config, state);
    FreshShape(config, state, s, inputs);
    var effects := FreshEffects(config, state, s, inputs);
    if !inputs.constrained && Reserve(config, state.days, inputs.day).Some? && ValidClaims(config, inputs.model) {
      var claims := PaidClaims(config, inputs);
      PaidAreVetted(config, inputs);
      DoneIsOwn(config, s, inputs.next, claims);
      VettedAreUnlike(config, claims);
      BuiltAreDrawn(config, claims, s, inputs);
      var tail := effects[3..];
      ProposingIsOwn(config, DoneState(config, state, s, inputs), s, inputs, claims, BuildRecords(claims, s, inputs));
      assert forall i | 3 <= i < |effects| :: effects[i] == tail[i - 3];
    }
  }

  /** Resuming fails on an own state if and only if the outcome of a model call is unknown, or a record of the
      matching entry has no score. */
  lemma ResumeThrowsIff(config: Config, state: State, s: Session)
    requires Own(config, state)
    ensures Resume(config, state.inFlight, s).Throws? <==>
      && state.inFlight.Some?
      && var f := state.inFlight.value;
         f.stage.ModelPending? || (f.stage.Proposing? && Matches(f, s) && !AllScored(f))
  {
    hide ValidClaims, ValidRecords, AllScored;
    if state.inFlight.Some? && !state.inFlight.value.stage.ModelPending? {
      AcceptedIffScored(config, state.inFlight.value);
    }
  }

  lemma EffectsAreOwn(config: Config, state: State, inputs: Inputs)
    requires Own(config, state)
    ensures AllOwn(config, Effects(config, state, inputs))
  {
    if Runnable(config, state) && inputs.session.Some? && inputs.triage.Some? {
      var s := inputs.session.value;
      FreshIsOwn(config, state, s, inputs);
      ResumedIsOwn(config, state, s, inputs);
      hide ValidClaims, ValidRecords, ProposeEffects, FreshEffects, AllOwn, Own;
    }
  }

  lemma ResumedIsOwn(config: Config, state: State, s: Session, inputs: Inputs)
    requires Own(config, state) && inputs.triage.Some?
    ensures var r := Resume(config, state.inFlight, s);
      r.Resumed? ==> AllOwn(config, ProposeEffects(config, state, s, inputs, r.f.claims,
        if r.f.stage.Proposing? then r.f.records else BuildRecords(r.f.claims, s, inputs)))
  {
    hide ValidClaims, ValidRecords, ProposeEffects, Drawn, Unlike, AllOwn, Fitting, Kept, Vetted, AllScored;
    var r := Resume(config, state.inFlight, s);
    if r.Resumed? {
      var e := state.inFlight.value;
      KeptAgain(config, e.claims);
      if e.stage.Proposing? {
        AcceptedIffScored(config, e);
        ResumedRecords(config, e, s, inputs.next);
        ProposingIsOwn(config, state, s, inputs, r.f.claims, r.f.records);
      } else {
        VettedAreUnlike(config, r.f.claims);
        BuiltAreDrawn(config, r.f.claims, s, inputs);
        ProposingIsOwn(config, state, s, inputs, r.f.claims, BuildRecords(r.f.claims, s, inputs));
      }
    }
  }

  /** The server files everything under its own key. */
  ghost predicate AllFiled(config: Config, server: map<Key, MemoryRecord>) {
    forall key | key in server :: Filed(config, Proposal(key, server[key]))
  }

  lemma {:induction false} AfterIsOwn(config: Config, w: World, effects: seq<Effect>)
    requires Own(config, w.file) && AllOwn(config, effects)
    ensures Own(config, After(w, effects).file)
    ensures AllFiled(config, w.server) ==> AllFiled(config, After(w, effects).server)
  {
    hide OwnEntry;
    if effects != [] {
      var front := effects[..|effects| - 1];
      assert forall i | 0 <= i < |front| :: front[i] == effects[i];
      AfterIsOwn(config, w, front);
    }
  }

  // ---- Schedules ----

  /** Tick i ran with inputs[i] and was stopped after ks[i] of its effects. */
  ghost predicate Schedule(config: Config, worlds: seq<World>, inputs: seq<Inputs>, ks: seq<nat>) {
    && |worlds| == |inputs| + 1 && |ks| == |inputs|
    && forall i | 0 <= i < |inputs| ::
         && ks[i] <= |Effects(config, worlds[i].file, inputs[i])|
         && worlds[i + 1] == After(worlds[i], Effects(config, worlds[i].file, inputs[i])[..ks[i]])
  }

  /** Over any schedule the state on disk is own, and the server has at most one proposal for each identity,
      revision and claim, and it is a proposal of just that. */
  lemma {:induction false} ServerStaysFiled(config: Config, worlds: seq<World>, inputs: seq<Inputs>, ks: seq<nat>,
                                            n: nat)
    requires Schedule(config, worlds, inputs, ks) && Own(config, worlds[0].file) && n < |worlds|
    ensures Own(config, worlds[n].file)
    ensures AllFiled(config, worlds[0].server) ==> AllFiled(config, worlds[n].server)
    ensures forall key | key in worlds[0].server ::
      key in worlds[n].server && worlds[n].server[key] == worlds[0].server[key]
    decreases n
  {
    hide ValidClaims, ValidRecords, Effects, After, Own, Filed;
    if n > 0 {
      ServerStaysFiled(config, worlds, inputs, ks, n - 1);
      var effects := Effects(config, worlds[n - 1].file, inputs[n - 1]);
      EffectsAreOwn(config, worlds[n - 1].file, inputs[n - 1]);
      assert AllOwn(config, effects[..ks[n - 1]]);
      AfterIsOwn(config, worlds[n - 1], effects[..ks[n - 1]]);
      ServerKeeps(worlds[n - 1], effects[..ks[n - 1]]);
    }
  }

  lemma {:induction false} ServerKeeps(w: World, effects: seq<Effect>)
    ensures forall key | key in w.server ::
      key in After(w, effects).server && After(w, effects).server[key] == w.server[key]
  {
    if effects != [] { ServerKeeps(w, effects[..|effects| - 1]); }
  }

  // ---- What a tick leaves in the file ----

  /** The page and the triage still lead to the session in flight. */
  predicate Carries(inputs: Inputs, f: InFlight) {
    inputs.session.Some? && inputs.triage.Some? && Matches(f, inputs.session.value)
  }

  lemma {:induction false} AfterFile(w: World, effects: seq<Effect>, k: nat)
    requires k <= |effects|
    ensures var now := After(w, effects[..k]).file;
      now == w.file || exists i | 0 <= i < k :: effects[i].Persist? && now == Saved(effects[i].state)
    decreases k
  {
    if k == 0 {
      NoEffects(w, effects);
    } else {
      NextEffect(w, effects, k - 1);
      AfterFile(w, effects, k - 1);
      if effects[k - 1].Persist? {
        assert After(w, effects[..k]).file == Saved(effects[k - 1].state);
      }
    }
  }

  lemma {:induction false} ProposedFile(config: Config, w: World, state: State, s: Session, inputs: Inputs,
                                        claims: seq<Claim>, records: seq<MemoryRecord>, j: nat)
    requires 0 < j <= |ProposeEffects(config, state, s, inputs, claims, records)|
    ensures var effects := ProposeEffects(config, state, s, inputs, claims, records);
      After(w, effects[..j]).file == if j == |effects| then MovedOn(state, inputs.next)
        else Saved(state.(inFlight := Some(ProposingEntry(config, s, inputs.next, claims, records))))
    decreases j
  {
    hide ProposeEffects, ProposingEntry, After;
    var effects := ProposeEffects(config, state, s, inputs, claims, records);
    ProposeShape(config, state, s, inputs, claims, records);
    NextEffect(w, effects, j - 1);
    if j > 1 {
      ProposedFile(config, w, state, s, inputs, claims, records, j - 1);
      var f := ProposingEntry(config, s, inputs.next, claims, records);
      if j < |effects| { assert effects[(j - 2) + 1] == Send(Proposals(f)[j - 2]); }
    }
  }

  function Proposed(config: Config, state: State, s: Session, inputs: Inputs): State
    requires Reserve(config, state.days, inputs.day).Some? && inputs.triage.Some?
  {
    var claims := PaidClaims(config, inputs);
    DoneState(config, state, s, inputs).(inFlight := Some(
      ProposingEntry(config, s, inputs.next, claims, BuildRecords(claims, s, inputs))))
  }

  /** The file while a fresh tick has not finished. */
  function FreshAt(config: Config, state: State, s: Session, inputs: Inputs, k: nat): State
    requires Reserve(config, state.days, inputs.day).Some? && inputs.triage.Some?
  {
    if k == 0 then state
    else if k == 1 then Saved(state)
    else if k == 2 then Saved(PendingState(config, state, s, inputs))
    else if k == 3 then Saved(DoneState(config, state, s, inputs))
    else Saved(Proposed(config, state, s, inputs))
  }

  lemma FreshFileEarly(config: Config, w: World, s: Session, inputs: Inputs, k: nat)
    requires inputs.triage.Some? && !inputs.constrained && Reserve(config, w.file.days, inputs.day).Some?
    requires k <= 3 && k <= |FreshEffects(config, w.file, s, inputs)|
    ensures After(w, FreshEffects(config, w.file, s, inputs)[..k]).file == FreshAt(config, w.file, s, inputs, k)
  {
    var effects := FreshEffects(config, w.file, s, inputs);
    hide FreshEffects, PaidClaims, ValidClaims, PendingState, DoneState, Reserve, BuildRecords, Saved, After;
    FreshShape(config, w.file, s, inputs);
    NoEffects(w, effects);
    if k > 0 { NextEffect(w, effects, k - 1); }
  }

  lemma AfterTail(w: World, effects: seq<Effect>, m: nat, k: nat)
    requires m <= k <= |effects|
    ensures After(w, effects[..k]) == After(After(w, effects[..m]), effects[m..][..k - m])
  {
    assert effects[..k] == effects[..m] + effects[m..][..k - m];
    AfterAppend(w, effects[..m], effects[m..][..k - m]);
  }

  lemma FreshFileLate(config: Config, w: World, s: Session, inputs: Inputs, k: nat)
    requires inputs.triage.Some? && !inputs.constrained && Reserve(config, w.file.days, inputs.day).Some?
    requires 3 < k <= |FreshEffects(config, w.file, s, inputs)|
    ensures var effects := FreshEffects(config, w.file, s, inputs);
      After(w, effects[..k]).file == if k < |effects| then FreshAt(config, w.file, s, inputs, k)
        else MovedOn(DoneState(config, w.file, s, inputs), inputs.next)
  {
    var effects := FreshEffects(config, w.file, s, inputs);
    hide FreshEffects, ProposeEffects, ProposingEntry, PaidClaims, ValidClaims, PendingState, DoneState, Reserve,
      BuildRecords, Saved, After;
    FreshShape(config, w.file, s, inputs);
    var done, claims := DoneState(config, w.file, s, inputs), PaidClaims(config, inputs);
    var records := BuildRecords(claims, s, inputs);
    AfterTail(w, effects, 3, k);
    ProposedFile(config, After(w, effects[..3]), done, s, inputs, claims, records, k - 3);
  }

  /** A fresh tick has at least five effects, or two if the answer of the model is refused. */
  lemma FreshLength(config: Config, state: State, s: Session, inputs: Inputs)
    requires inputs.triage.Some? && !inputs.constrained && Reserve(config, state.days, inputs.day).Some?
    ensures var effects := FreshEffects(config, state, s, inputs);
      if ValidClaims(config, inputs.model) then |effects| >= 5 else |effects| == 2
  {
    FreshShape(config, state, s, inputs);
    hide FreshEffects, ProposeEffects, PaidClaims, ValidClaims, PendingState, DoneState, Reserve, BuildRecords;
    if ValidClaims(config, inputs.model) {
      var claims := PaidClaims(config, inputs);
      ProposeShape(config, DoneState(config, state, s, inputs), s, inputs, claims, BuildRecords(claims, s, inputs));
    }
  }

  /** The file after any number of effects of a fresh tick. */
  lemma FreshFile(config: Config, w: World, inputs: Inputs, k: nat)
    requires CallsModel(config, w.file, inputs) && k <= |Effects(config, w.file, inputs)|
    ensures var effects := Effects(config, w.file, inputs); var s := inputs.session.value;
      && (if ValidClaims(config, inputs.model) then |effects| >= 5 else |effects| == 2)
      && After(w, effects[..k]).file ==
        if k < 3 || k < |effects| then FreshAt(config, w.file, s, inputs, k)
        else MovedOn(DoneState(config, w.file, s, inputs), inputs.next)
  {
    var s := inputs.session.value;
    assert Effects(config, w.file, inputs) == FreshEffects(config, w.file, s, inputs);
    hide Effects, FreshEffects, FreshAt, ValidClaims, DoneState, Resume, Reserve, After;
    FreshLength(config, w.file, s, inputs);
    if k <= 3 { FreshFileEarly(config, w, s, inputs, k); } else { FreshFileLate(config, w, s, inputs, k); }
  }

  /** Any other tick leaves the budget alone and starts no model call. */
  lemma OtherFile(config: Config, w: World, inputs: Inputs, k: nat)
    requires !CallsModel(config, w.file, inputs) && k <= |Effects(config, w.file, inputs)|
    ensures var now := After(w, Effects(config, w.file, inputs)[..k]).file;
      && now.days == w.file.days
      && (Runnable(config, w.file) ==> Runnable(config, now))
      && (!Runnable(config, w.file) ==> now == w.file)
  {
    hide ValidClaims, ValidRecords, KeysOf, BuildRecords, Reserve, After;
    var effects := Effects(config, w.file, inputs);
    forall i | 0 <= i < |effects| && effects[i].Persist?
      ensures effects[i].state.days == w.file.days && Runnable(config, Saved(effects[i].state))
    {
      if inputs.triage.Some? {
        var s := inputs.session.value;
        match Resume(config, w.file.inFlight, s)
        case Nothing => assert effects == [Persist(w.file)];
        case Resumed(f) =>
          var records := if f.stage.Proposing? then f.records else BuildRecords(f.claims, s, inputs);
          ProposeShape(config, w.file, s, inputs, f.claims, records);
          assert effects == ProposeEffects(config, w.file, s, inputs, f.claims, records);
      }
    }
    AfterFile(w, effects, k);
    if effects == [] { NoEffects(w, effects); }
  }

  // ---- When the extractor gets stuck on a state of its own making ----

  /** A persisted record has no score. */
  predicate Unscored(state: State) {
    state.inFlight.Some? && state.inFlight.value.stage.Proposing? && !AllScored(state.inFlight.value)
  }

  /** A claim that is to be proposed has a confidence that is no number. */
  predicate Unrated(config: Config, inputs: Inputs) {
    exists i | 0 <= i < |inputs.model| :: UnratedClaim(config, inputs, inputs.model[i])
  }

  predicate UnratedClaim(config: Config, inputs: Inputs, c: Claim) {
    && Rated(config, c.confidence).NotANumber?
    && config.shared(Squeeze(c.text)) && !inputs.known(Squeeze(c.text))
  }

  /** A fresh tick gets such an answer and is stopped between persisting its proposals and its end. */
  predicate Spoils(config: Config, state: State, inputs: Inputs, k: nat) {
    && CallsModel(config, state, inputs) && ValidClaims(config, inputs.model) && Unrated(config, inputs)
    && 3 < k < |Effects(config, state, inputs)|
  }

  lemma PaidClaimOf(config: Config, inputs: Inputs, i: nat)
    requires ValidClaims(config, inputs.model) && i < |inputs.model|
    ensures var v := Validated(config, inputs.model)[i];
      && (UnratedClaim(config, inputs, inputs.model[i]) <==>
            v.confidence.NotANumber? && v in PaidClaims(config, inputs) && !inputs.known(v.text))
  {
    hide ValidClaims;
    PaidAreVetted(config, inputs);
    assert Validated(config, inputs.model)[i] in Validated(config, inputs.model);
  }

  lemma UnscoredIfUnrated(config: Config, s: Session, inputs: Inputs)
    requires inputs.triage.Some? && ValidClaims(config, inputs.model) && Unrated(config, inputs)
    ensures exists r | r in BuildRecords(PaidClaims(config, inputs), s, inputs) :: r.claim.confidence.NotANumber?
  {
    hide ValidClaims, PaidClaims, UnratedClaim, BuildRecords, Validated;
    BuiltIffUnknown(PaidClaims(config, inputs), s, inputs);
    var j :| 0 <= j < |inputs.model| && UnratedClaim(config, inputs, inputs.model[j]);
    PaidClaimOf(config, inputs, j);
    var c := Validated(config, inputs.model)[j];
    assert MemoryRecord(c, s.identity, inputs.triage.value, inputs.now).claim.confidence.NotANumber?;
  }

  lemma UnratedIfUnscored(config: Config, s: Session, inputs: Inputs, r: MemoryRecord)
    requires inputs.triage.Some? && ValidClaims(config, inputs.model)
    requires r in BuildRecords(PaidClaims(config, inputs), s, inputs)
    ensures r.claim.confidence.NotANumber? || Scored(r)
    ensures r.claim.confidence.NotANumber? ==> Unrated(config, inputs)
  {
    hide ValidClaims, PaidClaims, UnratedClaim, BuildRecords, Validated;
    PaidAreVetted(config, inputs);
    BuiltIffUnknown(PaidClaims(config, inputs), s, inputs);
    var j :| 0 <= j < |inputs.model| && Validated(config, inputs.model)[j] == r.claim;
    PaidClaimOf(config, inputs, j);
  }

  lemma UnscoredIffUnrated(config: Config, state: State, s: Session, inputs: Inputs)
    requires Reserve(config, state.days, inputs.day).Some? && inputs.triage.Some? && ValidClaims(config, inputs.model)
    ensures Unscored(Saved(Proposed(config, state, s, inputs))) <==> Unrated(config, inputs)
  {
    hide ValidClaims, PaidClaims, Unrated, Reserve, DoneState, KeysOf, BuildRecords, Validated;
    var records := BuildRecords(PaidClaims(config, inputs), s, inputs);
    var f := Saved(Proposed(config, state, s, inputs)).inFlight.value;
    assert f.records == SavedRecords(records);
    if !AllScored(f) {
      var i :| 0 <= i < |f.records| && !Scored(f.records[i]);
      UnratedIfUnscored(config, s, inputs, records[i]);
    }
    if Unrated(config, inputs) {
      UnscoredIfUnrated(config, s, inputs);
      var i :| 0 <= i < |records| && records[i].claim.confidence.NotANumber?;
      assert !Scored(f.records[i]);
    }
  }

  /** Resuming from `model_done` gives every claim a score, so all records built from it have one. */
  lemma {:induction false} BuiltAreScored(claims: seq<Claim>, s: Session, inputs: Inputs)
    requires inputs.triage.Some? && forall c | c in claims :: InRange(c.confidence)
    ensures forall r | r in BuildRecords(claims, s, inputs) :: Scored(r)
  {
    BuiltIffUnknown(claims, s, inputs);
  }

  /** A tick that is not fresh makes no unscored entry. */
  lemma OtherUnscored(config: Config, w: World, inputs: Inputs, k: nat)
    requires Own(config, w.file) && !CallsModel(config, w.file, inputs) && k <= |Effects(config, w.file, inputs)|
    ensures var now := After(w, Effects(config, w.file, inputs)[..k]).file;
      Unscored(now) ==> now.inFlight == w.file.inFlight
  {
    hide ValidClaims, KeysOf, BuildRecords, Reserve, After, Own, Matches, Vetted, OwnEntry;
    var effects := Effects(config, w.file, inputs);
    forall i | 0 <= i < |effects| && effects[i].Persist?
      ensures Unscored(Saved(effects[i].state)) ==> Saved(effects[i].state).inFlight == w.file.inFlight
    {
      if inputs.triage.Some? {
        var s := inputs.session.value;
        match Resume(config, w.file.inFlight, s)
        case Nothing =>
          OwnIsSaved(config, w.file);
          assert effects == [Persist(w.file)];
        case Resumed(f) => ResumedScored(config, w.file, s, inputs, i);
      }
    }
    AfterFile(w, effects, k);
    if effects == [] { NoEffects(w, effects); }
  }

  lemma ResumedScored(config: Config, state: State, s: Session, inputs: Inputs, i: nat)
    requires Own(config, state) && inputs.triage.Some? && Resume(config, state.inFlight, s).Resumed?
    requires var f := Resume(config, state.inFlight, s).f;
      var effects := ProposeEffects(config, state, s, inputs, f.claims,
        if f.stage.Proposing? then f.records else BuildRecords(f.claims, s, inputs));
      i < |effects| && effects[i].Persist?
    ensures var f := Resume(config, state.inFlight, s).f;
      var effects := ProposeEffects(config, state, s, inputs, f.claims,
        if f.stage.Proposing? then f.records else BuildRecords(f.claims, s, inputs));
      !Unscored(Saved(effects[i].state))
  {
    hide ValidClaims, KeysOf, BuildRecords, Matches, ProposeEffects, Proposals;
    var f := Resume(config, state.inFlight, s).f;
    var records := if f.stage.Proposing? then f.records else BuildRecords(f.claims, s, inputs);
    var effects := ProposeEffects(config, state, s, inputs, f.claims, records);
    ProposeShape(config, state, s, inputs, f.claims, records);
    var e := ProposingEntry(config, s, inputs.next, f.claims, records);
    forall k | 0 < k < |effects| - 1 ensures effects[k].Send? {
      assert effects[(k - 1) + 1] == Send(Proposals(e)[k - 1]);
    }
    KeptAgain(config, state.inFlight.value.claims);
    assert forall c | c in f.claims :: InRange(c.confidence);
    BuiltAreScored(f.claims, s, inputs);
    assert forall k | 0 <= k < |records| :: records[k] in records;
    assert AllScored(SavedEntry(e));
  }

  /** One tick leaves an unscored entry if and only if it makes one or does not touch the one it found. */
  lemma UnscoredStep(config: Config, w: World, inputs: Inputs, k: nat)
    requires Own(config, w.file) && k <= |Effects(config, w.file, inputs)|
    ensures var now := After(w, Effects(config, w.file, inputs)[..k]).file;
      Unscored(now) <==>
        Spoils(config, w.file, inputs, k) || (Unscored(w.file) && now.inFlight == w.file.inFlight)
  {
    hide Effects, After, ValidClaims, PaidClaims, Reserve, Own, AllScored, Unrated;
    if CallsModel(config, w.file, inputs) {
      FreshFile(config, w, inputs, k);
      OwnIsSaved(config, w.file);
      hide Resume;
      if k > 3 { UnscoredIffUnrated(config, w.file, inputs.session.value, inputs); }
    } else {
      OtherUnscored(config, w, inputs, k);
    }
  }

  /** The exact origin of a stuck state: over any schedule, resuming throws on the state that it left if and only
      if a model call is pending, or the entry is the matching one's and was persisted by a tick that got a
      confidence that is no number and was stopped before it had proposed everything. */
  lemma ResumeThrowsExactly(config: Config, worlds: seq<World>, inputs: seq<Inputs>, ks: seq<nat>, n: nat, s: Session)
    requires Schedule(config, worlds, inputs, ks) && n < |worlds|
    requires Own(config, worlds[0].file) && !Unscored(worlds[0].file)
    ensures Resume(config, worlds[n].file.inFlight, s).Throws? <==>
      && worlds[n].file.inFlight.Some?
      && (worlds[n].file.inFlight.value.stage.ModelPending?
          || (Matches(worlds[n].file.inFlight.value, s) && SpoiledBefore(config, worlds, inputs, ks, n)))
  {
    hide ValidClaims, ValidRecords, Effects, After, Own, Matches;
    UnscoredOrigin(config, worlds, inputs, ks, n);
    ResumeThrowsIff(config, worlds[n].file, s);
  }

  /** The entry in the file after n ticks is one that a spoiled tick has left. */
  ghost predicate SpoiledBefore(config: Config, worlds: seq<World>, inputs: seq<Inputs>, ks: seq<nat>, n: nat)
    requires |worlds| == |inputs| + 1 && |ks| == |inputs| && n < |worlds|
  {
    exists m | 0 <= m < n ::
      Spoils(config, worlds[m].file, inputs[m], ks[m]) && worlds[n].file.inFlight == worlds[m + 1].file.inFlight
  }

  lemma {:induction false} UnscoredOrigin(config: Config, worlds: seq<World>, inputs: seq<Inputs>, ks: seq<nat>, n: nat)
    requires Schedule(config, worlds, inputs, ks) && n < |worlds|
    requires Own(config, worlds[0].file) && !Unscored(worlds[0].file)
    ensures Own(config, worlds[n].file)
    ensures Unscored(worlds[n].file) <==> SpoiledBefore(config, worlds, inputs, ks, n)
    decreases n
  {
    hide ValidClaims, ValidRecords, Effects, After, Own, Spoils, AllScored;
    ServerStaysFiled(config, worlds, inputs, ks, n);
    if n > 0 {
      UnscoredOrigin(config, worlds, inputs, ks, n - 1);
      UnscoredStep(config, worlds[n - 1], inputs[n - 1], ks[n - 1]);
      forall m | 0 <= m < n && Spoils(config, worlds[m].file, inputs[m], ks[m])
        ensures Unscored(worlds[m + 1].file)
      {
        ServerStaysFiled(config, worlds, inputs, ks, m);
        UnscoredStep(config, worlds[m], inputs[m], ks[m]);
      }
    }
  }

  lemma UnscoredTick(config: Config, state: State, inputs: Inputs)
    requires Own(config, state) && Unscored(state) && Carries(inputs, state.inFlight.value)
    ensures Resume(config, state.inFlight, inputs.session.value).Throws? && Effects(config, state, inputs) == []
  {
    hide ValidClaims, ValidRecords, Own, AllScored, Matches;
    ResumeThrowsIff(config, state, inputs.session.value);
  }

  /** Until page or triage lead elsewhere, no tick after that persists or sends anything. */
  lemma {:induction false} UnscoredBlocks(config: Config, worlds: seq<World>, inputs: seq<Inputs>, ks: seq<nat>,
                                          f: InFlight, i: nat, j: nat)
    requires Schedule(config, worlds, inputs, ks) && i <= j < |worlds|
    requires Own(config, worlds[i].file) && Unscored(worlds[i].file) && worlds[i].file.inFlight == Some(f)
    requires forall k | i <= k < j :: Carries(inputs[k], f)
    ensures worlds[j] == worlds[i]
    decreases j
  {
    hide Carries, Effects, After, Own, Unscored;
    if i < j {
      UnscoredBlocks(config, worlds, inputs, ks, f, i, j - 1);
      UnscoredTick(config, worlds[i].file, inputs[j - 1]);
      NoEffects(worlds[j - 1], []);
    }
  }

  /** A spoiled tick leaves an entry of its own session on which resuming throws. */
  lemma SpoiledIsStuck(config: Config, w: World, inputs: Inputs, k: nat)
    requires Own(config, w.file) && Spoils(config, w.file, inputs, k)
    ensures var now := After(w, Effects(config, w.file, inputs)[..k]).file;
      Own(config, now) && Unscored(now) && Matches(now.inFlight.value, inputs.session.value)
  {
    hide ValidClaims, Effects, After, Own, Resume, Reserve, Unrated, PaidClaims, BuildRecords, AllScored;
    UnscoredStep(config, w, inputs, k);
    FreshFile(config, w, inputs, k);
    EffectsAreOwn(config, w.file, inputs);
    AfterIsOwn(config, w, Effects(config, w.file, inputs)[..k]);
  }

  /** The answer of the model is one acceptable new claim of the confidence "high", which is no number. */
  predicate High(config: Config, inputs: Inputs) {
    && inputs.model == [Claim("decision", "use-snake-case", Words("high"))]
    && config.numeric("high").None? && config.maxClaims >= 1
    && config.acceptable("use-snake-case") && config.shared("use-snake-case") && !inputs.known("use-snake-case")
  }

  lemma OneWord(text: string)
    requires text != "" && forall i | 0 <= i < |text| :: text[i] == '-' || 'a' <= text[i] <= 'z'
    ensures Squeeze(text) == text
  {
    hide Squeeze, Word;
    assert forall i | 0 <= i < |text| :: !Blank(text[i]);
    SqueezeStep(text, "");
  }

  lemma HighIsUnrated(config: Config, inputs: Inputs)
    requires High(config, inputs)
    ensures ValidClaims(config, inputs.model) && Unrated(config, inputs)
  {
    hide Squeeze;
    OneWord("use-snake-case");
    assert UnratedClaim(config, inputs, inputs.model[0]);
  }

  /** At that input: if the tick dies when its first proposal is sent, nothing happens any more while the session
      is the one to extract. */
  lemma HighConfidenceBlocks(config: Config, w: World, s: Session, inputs: Inputs, later: Inputs)
    requires High(config, inputs) && inputs.session == Some(s) && inputs.triage.Some? && !inputs.constrained
    requires w.file == State(None, None, map[]) && AtMost(config.call, config.daily)
    requires later.session == Some(s) && later.triage.Some?
    ensures |Effects(config, w.file, inputs)| > 4
    ensures var stopped := After(w, Effects(config, w.file, inputs)[..4]);
      Resume(config, stopped.file.inFlight, s).Throws? && Effects(config, stopped.file, later) == []
  {
    HighIsUnrated(config, inputs);
    assert CallsModel(config, w.file, inputs) && Own(config, w.file);
    hide High, Effects, After, Own, Resume, ValidClaims, Unrated, Unscored, Matches, CallsModel;
    FreshFile(config, w, inputs, 0);
    SpoiledIsStuck(config, w, inputs, 4);
    UnscoredTick(config, After(w, Effects(config, w.file, inputs)[..4]).file, later);
  }


  /** The exact condition for a tick to leave a state that stops every later one: it was stopped while its model
      call was pending, or between that and its end in a session whose id the loader refuses. */
  lemma LeavesUnrunnable(config: Config, w: World, inputs: Inputs, k: nat)
    requires Own(config, w.file) && Runnable(config, w.file) && k <= |Effects(config, w.file, inputs)|
    ensures !Runnable(config, After(w, Effects(config, w.file, inputs)[..k]).file) <==>
      && CallsModel(config, w.file, inputs)
      && (k == 2 || (2 < k < |Effects(config, w.file, inputs)| && !config.loads(inputs.session.value.id)))
  {
    hide Effects, After, ValidClaims, PaidClaims, BuildRecords, Reserve, Own, Resume, Matches;
    if CallsModel(config, w.file, inputs) {
      FreshFile(config, w, inputs, k);
      OwnIsSaved(config, w.file);
    } else {
      OtherFile(config, w, inputs, k);
    }
  }

  lemma UnrunnableTick(config: Config, state: State, inputs: Inputs)
    requires !Runnable(config, state)
    ensures Effects(config, state, inputs) == []
  {
  }

  /** Such a state stays for good. */
  lemma {:induction false} UnrunnableBlocks(config: Config, worlds: seq<World>, inputs: seq<Inputs>, ks: seq<nat>,
                                            i: nat, j: nat)
    requires Schedule(config, worlds, inputs, ks) && i <= j < |worlds| && !Runnable(config, worlds[i].file)
    ensures worlds[j] == worlds[i]
    decreases j
  {
    hide Effects, After, Runnable;
    if i < j {
      UnrunnableBlocks(config, worlds, inputs, ks, i, j - 1);
      UnrunnableTick(config, worlds[j - 1].file, inputs[j - 1]);
      NoEffects(worlds[j - 1], []);
    }
  }

  // ---- The token budget ----

  /** On every day exactly the tokens of the pending model call are reserved. */
  ghost predicate Balanced(config: Config, state: State) {
    forall day :: BudgetOf(state.days, day).reserved == if PendingOn(state, day) then config.call else NONE
  }

  predicate PendingOn(state: State, day: string) {
    state.inFlight.Some? && state.inFlight.value.stage.ModelPending? && state.inFlight.value.day == day
  }

  /** The tick has come to its model call. */
  predicate Called(config: Config, state: State, inputs: Inputs, k: nat, day: string) {
    CallsModel(config, state, inputs) && k >= 2 && inputs.day == day
  }

  /** What the model calls of the first n ticks have used on that day. */
  function Spent(config: Config, worlds: seq<World>, inputs: seq<Inputs>, ks: seq<nat>, n: nat, day: string): Tokens
    requires |worlds| == |inputs| + 1 && |ks| == |inputs| && n <= |inputs|
  {
    if n == 0 then NONE
    else
      Plus(Spent(config, worlds, inputs, ks, n - 1, day),
           if Called(config, worlds[n - 1].file, inputs[n - 1], ks[n - 1], day) then inputs[n - 1].usage else NONE)
  }

  function Committed(state: State, day: string): Tokens {
    Plus(BudgetOf(state.days, day).used, BudgetOf(state.days, day).reserved)
  }

  lemma FreshBudget(config: Config, state: State, inputs: Inputs, day: string)
    requires Reserve(config, state.days, inputs.day).Some?
    ensures var days := Reserve(config, state.days, inputs.day).value;
      var done := Settle(config, days, inputs.day, inputs.usage);
      var b := BudgetOf(state.days, day);
      if day != inputs.day then BudgetOf(days, day) == b && BudgetOf(done, day) == b
      else
        && BudgetOf(days, day) == Budget(Plus(b.reserved, config.call), b.used)
        && BudgetOf(done, day) == Budget(b.reserved, Plus(b.used, inputs.usage))
        && AtMost(Plus(Plus(b.used, b.reserved), config.call), config.daily)
  {
  }

  function FreshBudgetAt(config: Config, b: Budget, inputs: Inputs, k: nat, day: string): Budget {
    if k < 2 || day != inputs.day then b
    else if k == 2 then Budget(Plus(b.reserved, config.call), b.used)
    else Budget(b.reserved, Plus(b.used, inputs.usage))
  }

  /** The budget of a day after any number of effects of a fresh tick. */
  lemma FreshDay(config: Config, w: World, inputs: Inputs, k: nat, day: string)
    requires Own(config, w.file) && CallsModel(config, w.file, inputs) && k <= |Effects(config, w.file, inputs)|
    ensures var now := After(w, Effects(config, w.file, inputs)[..k]).file;
      var b := BudgetOf(w.file.days, day);
      && BudgetOf(now.days, day) == FreshBudgetAt(config, b, inputs, k, day)
      && (PendingOn(now, day) <==> k == 2 && day == inputs.day)
      && (day == inputs.day ==> AtMost(Plus(Plus(b.used, b.reserved), config.call), config.daily))
  {
    hide Effects, After, ValidClaims, PaidClaims, BuildRecords, Own, Resume, KeysOf, Reserve, Settle, BudgetOf;
    FreshFile(config, w, inputs, k);
    OwnIsSaved(config, w.file);
    FreshBudget(config, w.file, inputs, day);
  }

  /** On that day exactly the pending call stays reserved, and what is used or reserved grows by at least the
      tokens that were spent and stays below the limit. */
  ghost predicate Accounted(config: Config, state: State, now: State, day: string, spent: Tokens) {
    && BudgetOf(now.days, day).reserved == (if PendingOn(now, day) then config.call else NONE)
    && AtMost(Plus(Committed(state, day), spent), Committed(now, day))
    && (AtMost(Committed(state, day), config.daily) ==> AtMost(Committed(now, day), config.daily))
  }

  lemma NothingReserved(config: Config, state: State, inputs: Inputs, day: string)
    requires Balanced(config, state) && CallsModel(config, state, inputs)
    ensures BudgetOf(state.days, day).reserved == NONE
  {
    hide BudgetOf, Resume, Reserve;
    assert !PendingOn(state, day);
  }

  lemma FreshAccounted(config: Config, state: State, now: State, inputs: Inputs, k: nat, day: string)
    requires var b := BudgetOf(state.days, day);
      && b.reserved == NONE && AtMost(inputs.usage, config.call)
      && BudgetOf(now.days, day) == FreshBudgetAt(config, b, inputs, k, day)
      && (PendingOn(now, day) <==> k == 2 && day == inputs.day)
      && (day == inputs.day ==> AtMost(Plus(Plus(b.used, b.reserved), config.call), config.daily))
    ensures Accounted(config, state, now, day, if k >= 2 && inputs.day == day then inputs.usage else NONE)
  {
    hide BudgetOf, PendingOn;
    var b, c := BudgetOf(state.days, day), BudgetOf(now.days, day);
    if k >= 2 && day == inputs.day {
      BudgetGrows(config, b, c, inputs.usage, k);
      hide Plus, AtMost;
      assert c.reserved == if k == 2 then config.call else NONE;
    } else {
      assert c == b;
    }
  }

  lemma BudgetGrows(config: Config, b: Budget, c: Budget, usage: Tokens, k: nat)
    requires b.reserved == NONE && AtMost(usage, config.call)
    requires c == if k == 2 then Budget(Plus(b.reserved, config.call), b.used)
                  else Budget(b.reserved, Plus(b.used, usage))
    requires AtMost(Plus(Plus(b.used, b.reserved), config.call), config.daily)
    ensures c.reserved == if k == 2 then config.call else NONE
    ensures AtMost(Plus(Plus(b.used, b.reserved), usage), Plus(c.used, c.reserved))
    ensures AtMost(Plus(c.used, c.reserved), config.daily)
  {
  }

  lemma OtherAccounted(config: Config, state: State, now: State, day: string)
    requires Balanced(config, state) && now.days == state.days && (PendingOn(now, day) <==> PendingOn(state, day))
    ensures Accounted(config, state, now, day, NONE)
  {
    hide BudgetOf, PendingOn;
  }

  lemma BudgetStep(config: Config, w: World, inputs: Inputs, k: nat, day: string)
    requires Own(config, w.file) && Balanced(config, w.file) && k <= |Effects(config, w.file, inputs)|
    requires AtMost(inputs.usage, config.call)
    ensures Accounted(config, w.file, After(w, Effects(config, w.file, inputs)[..k]).file, day,
                      if Called(config, w.file, inputs, k, day) then inputs.usage else NONE)
  {
    hide Effects, After, Own, CallsModel, Balanced, Accounted, BudgetOf, AtMost, Plus, FreshBudgetAt;
    var now := After(w, Effects(config, w.file, inputs)[..k]).file;
    if CallsModel(config, w.file, inputs) {
      hide PendingOn;
      NothingReserved(config, w.file, inputs, day);
      FreshDay(config, w, inputs, k, day);
      FreshAccounted(config, w.file, now, inputs, k, day);
    } else {
      OtherFile(config, w, inputs, k);
      OtherAccounted(config, w.file, now, day);
    }
  }

  lemma StaysBalanced(config: Config, w: World, inputs: Inputs, k: nat)
    requires Own(config, w.file) && Balanced(config, w.file) && k <= |Effects(config, w.file, inputs)|
    requires AtMost(inputs.usage, config.call)
    ensures Balanced(config, After(w, Effects(config, w.file, inputs)[..k]).file)
  {
    hide Effects, After, Own, BudgetOf, PendingOn, Called;
    var now := After(w, Effects(config, w.file, inputs)[..k]).file;
    forall day
      ensures BudgetOf(now.days, day).reserved == if PendingOn(now, day) then config.call else NONE
    {
      BudgetStep(config, w, inputs, k, day);
    }
  }

  /** If no call uses more than was reserved for it, the calls never use more than the daily limit, wherever the
      ticks stop; and tokens stay reserved exactly while a call is pending. */
  lemma {:induction false} NeverOverspent(config: Config, worlds: seq<World>, inputs: seq<Inputs>, ks: seq<nat>, n: nat,
                                          day: string)
    requires Schedule(config, worlds, inputs, ks) && n < |worlds|
    requires Own(config, worlds[0].file) && Balanced(config, worlds[0].file)
    requires forall i | 0 <= i < n :: AtMost(inputs[i].usage, config.call)
    requires AtMost(Committed(worlds[0].file, day), config.daily)
    ensures Balanced(config, worlds[n].file)
    ensures AtMost(Plus(Committed(worlds[0].file, day), Spent(config, worlds, inputs, ks, n, day)),
                   Committed(worlds[n].file, day))
    ensures AtMost(Committed(worlds[n].file, day), config.daily)
    decreases n
  {
    hide Effects, After, Own, Balanced, Called, Committed;
    if n > 0 {
      NeverOverspent(config, worlds, inputs, ks, n - 1, day);
      ServerStaysFiled(config, worlds, inputs, ks, n - 1);
      BudgetStep(config, worlds[n - 1], inputs[n - 1], ks[n - 1], day);
      StaysBalanced(config, worlds[n - 1], inputs[n - 1], ks[n - 1]);
    }
  }

  /** The limit is exceeded by a settled call if and only if the call takes the use of the day beyond it; the code
      does not compare the two. */
  lemma OverspentIff(config: Config, w: World, inputs: Inputs)
    requires Own(config, w.file) && Balanced(config, w.file) && CallsModel(config, w.file, inputs)
    requires ValidClaims(config, inputs.model)
    ensures var now := After(w, Effects(config, w.file, inputs)).file;
      AtMost(Committed(now, inputs.day), config.daily) <==>
        AtMost(Plus(BudgetOf(w.file.days, inputs.day).used, inputs.usage), config.daily)
  {
    var effects := Effects(config, w.file, inputs);
    FreshFile(config, w, inputs, |effects|);
    assert effects[..|effects|] == effects;
    FreshBudget(config, w.file, inputs, inputs.day);
    assert !PendingOn(w.file, inputs.day);
    hide Effects, After, ValidClaims, PaidClaims, BuildRecords, Resume, CallsModel;
  }

  /** At an input: a call that uses two tokens where one was reserved takes the day beyond its limit of one. */
  lemma OneCallOverspends(config: Config, w: World, inputs: Inputs)
    requires w.file == State(None, None, map[]) && config.call == Tokens(1, 1) && config.daily == Tokens(1, 1)
    requires CallsModel(config, w.file, inputs) && ValidClaims(config, inputs.model) && inputs.usage == Tokens(2, 1)
    ensures !AtMost(Committed(After(w, Effects(config, w.file, inputs)).file, inputs.day), config.daily)
  {
    assert Balanced(config, w.file);
    OverspentIff(config, w, inputs);
    hide Effects, After, CallsModel, ValidClaims, Committed;
  }

  // ---- The proposing stage ----

  /** The tick gets to the proposals in flight: the loader takes the file, all records have a score, and page and
      triage lead to the session. */
  predicate Resumes(config: Config, f: InFlight, inputs: Inputs) {
    f.stage.Proposing? && AllScored(f) && config.loads(f.session) && Carries(inputs, f)
  }

  /** A resumed tick persists the same records, sends the same proposals, and only then moves on. */
  lemma ResumedEffects(config: Config, state: State, inputs: Inputs, f: InFlight)
    requires Own(config, state) && state.inFlight == Some(f) && Resumes(config, f, inputs)
    ensures Effects(config, state, inputs)
      == [Persist(state.(inFlight := Some(Again(config, f, inputs.next))))] + Sends(Proposals(f))
         + [Persist(MovedOn(state, inputs.next))]
  {
    var s := inputs.session.value;
    AcceptedIffScored(config, f);
    ResumedRecords(config, f, s, inputs.next);
    assert Resume(config, state.inFlight, s) == Resumed(f.(claims := Validated(config, f.claims)));
    hide ValidClaims, ValidRecords, Validated, Kept, KeysOf, AllScored, Resume;
    assert Proposals(Again(config, f, inputs.next)) == Proposals(f);
  }

  function StoreAll(server: map<Key, MemoryRecord>, proposals: seq<Proposal>): map<Key, MemoryRecord> {
    if proposals == [] then server
    else Store(StoreAll(server, proposals[..|proposals| - 1]), proposals[|proposals| - 1])
  }

  lemma {:induction false} AfterSends(w: World, proposals: seq<Proposal>)
    ensures After(w, Sends(proposals)) == World(w.file, StoreAll(w.server, proposals), w.sent + proposals)
  {
    if proposals != [] {
      var front := proposals[..|proposals| - 1];
      AfterSends(w, front);
      assert Sends(proposals)[..|proposals| - 1] == Sends(front);
      assert proposals == front + [proposals[|proposals| - 1]];
    }
  }

  lemma {:induction false} StoredAll(server: map<Key, MemoryRecord>, proposals: seq<Proposal>)
    ensures forall p | p in proposals :: p.key in StoreAll(server, proposals)
    ensures forall key | key in server ::
      key in StoreAll(server, proposals) && StoreAll(server, proposals)[key] == server[key]
  {
    if proposals != [] {
      StoredAll(server, proposals[..|proposals| - 1]);
      assert proposals == proposals[..|proposals| - 1] + [proposals[|proposals| - 1]];
    }
  }

  /** A prefix of the effects of a resumed tick. */
  lemma ResumedPrefix(config: Config, w: World, inputs: Inputs, f: InFlight, k: nat)
    requires Own(config, w.file) && w.file.inFlight == Some(f) && Resumes(config, f, inputs)
    requires k <= |Effects(config, w.file, inputs)|
    ensures var effects := Effects(config, w.file, inputs); var now := After(w, effects[..k]);
      && |effects| == |Proposals(f)| + 2
      && (k == 0 ==> now == w)
      && (0 < k < |effects| ==> now == World(w.file.(inFlight := Some(Again(config, f, inputs.next))),
                                            StoreAll(w.server, Proposals(f)[..k - 1]), w.sent + Proposals(f)[..k - 1]))
      && (k == |effects| ==>
            now == World(MovedOn(w.file, inputs.next), StoreAll(w.server, Proposals(f)), w.sent + Proposals(f)))
  {
    var effects := Effects(config, w.file, inputs);
    AgainIsSaved(config, f, inputs.next);
    hide Effects, ValidClaims, StoreAll, Own, Resumes, Again, SavedEntry, Matches, Sends;
    ResumedEffects(config, w.file, inputs, f);
    ProposingPrefix(w, w.file.(inFlight := Some(Again(config, f, inputs.next))), Proposals(f),
                    MovedOn(w.file, inputs.next), effects, k);
  }

  lemma ProposingPrefix(w: World, first: State, ps: seq<Proposal>, last: State, effects: seq<Effect>, k: nat)
    requires effects == [Persist(first)] + Sends(ps) + [Persist(last)] && k <= |effects|
    ensures var now := After(w, effects[..k]);
      now == if k == 0 then w
             else if k < |effects|
             then World(Saved(first), StoreAll(w.server, ps[..k - 1]), w.sent + ps[..k - 1])
             else World(Saved(last), StoreAll(w.server, ps), w.sent + ps)
  {
    hide StoreAll, Sends, Saved;
    if 0 < k {
      var sent := if k < |effects| then ps[..k - 1] else ps;
      SendsPrefix(ps, |sent|);
      OneEffect(w, [Persist(first)]);
      assert [Persist(first)][..1] == [Persist(first)];
      AfterAppend(w, [Persist(first)], Sends(sent));
      AfterSends(Do(w, Persist(first)), sent);
      assert effects[..1 + |sent|] == [Persist(first)] + Sends(sent);
      if k == |effects| {
        NextEffect(w, effects, k - 1);
        assert ps[..|ps|] == ps;
      }
    } else {
      NoEffects(w, effects);
    }
  }

  lemma SendsPrefix(ps: seq<Proposal>, n: nat)
    requires n <= |ps|
    ensures Sends(ps[..n]) == Sends(ps)[..n]
  {
  }

  /** The entry on disk is still that of f, its cursor and the defaults of its claims aside. */
  predicate StillProposing(state: State, f: InFlight) {
    && state.inFlight.Some?
    && state.inFlight.value == f.(cursor := state.inFlight.value.cursor, claims := state.inFlight.value.claims)
  }

  /** Once `proposing` is on disk, every tick, wherever it stops, resends the same records under the same
      keys from the first one on; the cursor stays until all of them are acknowledged, and moves in the
      very tick that has sent them all. */
  lemma TickWhileProposing(config: Config, w: World, inputs: Inputs, f: InFlight, k: nat)
    requires Own(config, w.file) && StillProposing(w.file, f) && Resumes(config, f, inputs)
    requires k <= |Effects(config, w.file, inputs)| && |f.records| == |f.keys|
    ensures var effects := Effects(config, w.file, inputs); var now := After(w, effects[..k]);
      && (exists i | 0 <= i <= |Proposals(f)| ::
            now.sent == w.sent + Proposals(f)[..i] && now.server == StoreAll(w.server, Proposals(f)[..i]))
      && (k < |effects| ==> StillProposing(now.file, f) && now.file.cursor == w.file.cursor)
      && (k == |effects| ==>
            && now.file.cursor == inputs.next && now.file.inFlight.None? && now.file.days == w.file.days
            && now.sent == w.sent + Proposals(f) && forall p | p in Proposals(f) :: p.key in now.server)
  {
    hide Effects, ValidRecords, ValidClaims, Own, Validated;
    var g := w.file.inFlight.value;
    assert Proposals(g) == Proposals(f);
    var ps := Proposals(f);
    ResumedPrefix(config, w, inputs, g, k);
    StoredAll(w.server, ps);
    assert ps[..|ps|] == ps && ps[..0] == [];
    var i := if k == 0 then 0 else if k < |ps| + 2 then k - 1 else |ps|;
    var now := After(w, Effects(config, w.file, inputs)[..k]);
    assert now.sent == w.sent + ps[..i] && now.server == StoreAll(w.server, ps[..i]);
  }

  /** The server's record for a proposal: the proposal's own, if the key was free at first. */
  ghost predicate Faithful(start: map<Key, MemoryRecord>, server: map<Key, MemoryRecord>, ps: seq<Proposal>) {
    && (forall key | key in start :: key in server && server[key] == start[key])
    && (forall key | key in server && key !in start :: exists p | p in ps :: p.key == key && p.record == server[key])
  }

  lemma {:induction false} StoreAllFaithful(start: map<Key, MemoryRecord>, server: map<Key, MemoryRecord>,
                                            ps: seq<Proposal>, i: nat)
    requires Faithful(start, server, ps) && i <= |ps|
    ensures Faithful(start, StoreAll(server, ps[..i]), ps)
    decreases i
  {
    if i > 0 {
      StoreAllFaithful(start, server, ps, i - 1);
      assert ps[..i][..i - 1] == ps[..i - 1];
      assert ps[i - 1] in ps;
    } else {
      assert ps[..0] == [];
    }
  }

  /** Any number of ticks, each stopped anywhere before its end: the entry and the cursor stay, nothing but
      the entry's own proposals is ever sent, and the server holds at most those. */
  lemma {:induction false} ResentUntilAcknowledged(config: Config, worlds: seq<World>, inputs: seq<Inputs>,
                                                   ks: seq<nat>,
                                                   f: InFlight, n: nat)
    requires Schedule(config, worlds, inputs, ks) && Own(config, worlds[0].file) && n <= |inputs|
    requires worlds[0].file.inFlight == Some(f) && |f.records| == |f.keys|
    requires forall i | 0 <= i < n ::
      Resumes(config, f, inputs[i]) && ks[i] < |Effects(config, worlds[i].file, inputs[i])|
    ensures Own(config, worlds[n].file) && StillProposing(worlds[n].file, f)
    ensures worlds[n].file.cursor == worlds[0].file.cursor
    ensures worlds[0].sent <= worlds[n].sent
    ensures forall j | |worlds[0].sent| <= j < |worlds[n].sent| :: worlds[n].sent[j] in Proposals(f)
    ensures Faithful(worlds[0].server, worlds[n].server, Proposals(f))
    decreases n
  {
    hide Resumes, Effects, After, Own;
    if n > 0 {
      ResentUntilAcknowledged(config, worlds, inputs, ks, f, n - 1);
      var w, now := worlds[n - 1], worlds[n];
      TickWhileProposing(config, w, inputs[n - 1], f, ks[n - 1]);
      var ps := Proposals(f);
      var i :| 0 <= i <= |ps| && now.sent == w.sent + ps[..i] && now.server == StoreAll(w.server, ps[..i]);
      StoreAllFaithful(worlds[0].server, w.server, Proposals(f), i);
      forall j | |w.sent| <= j < |now.sent| ensures now.sent[j] in Proposals(f) {
        assert now.sent[j] == Proposals(f)[j - |w.sent|];
      }
      ServerStaysFiled(config, worlds, inputs, ks, n);
    }
  }

  /** And when a tick at last gets to its end, the cursor moves on, everything has been sent in that tick
      and is on the server, under each key that was free exactly the record that was persisted. */
  lemma AcknowledgedThenMoved(config: Config, worlds: seq<World>, inputs: seq<Inputs>, ks: seq<nat>, f: InFlight,
                              n: nat)
    requires Schedule(config, worlds, inputs, ks) && Own(config, worlds[0].file) && n < |inputs|
    requires worlds[0].file.inFlight == Some(f) && |f.records| == |f.keys|
    requires forall i | 0 <= i <= n :: Resumes(config, f, inputs[i])
    requires forall i | 0 <= i < n :: ks[i] < |Effects(config, worlds[i].file, inputs[i])|
    requires ks[n] == |Effects(config, worlds[n].file, inputs[n])|
    ensures worlds[n + 1].file.cursor == inputs[n].next && worlds[n + 1].file.inFlight.None?
    ensures worlds[n + 1].file.days == worlds[n].file.days
    ensures worlds[n + 1].sent == worlds[n].sent + Proposals(f)
    ensures forall p | p in Proposals(f) :: p.key in worlds[n + 1].server
    ensures forall p | p in Proposals(f) && p.key !in worlds[0].server :: worlds[n + 1].server[p.key] == p.record
  {
    assert f.stage.Proposing? by { assert Resumes(config, f, inputs[0]); }
    hide Resumes, Effects, After, Own;
    ResentUntilAcknowledged(config, worlds, inputs, ks, f, n);
    TickWhileProposing(config, worlds[n], inputs[n], f, ks[n]);
    var w, now, ps := worlds[n], worlds[n + 1], Proposals(f);
    var i :| 0 <= i <= |ps| && now.sent == w.sent + ps[..i] && now.server == StoreAll(w.server, ps[..i]);
    StoreAllFaithful(worlds[0].server, w.server, ps, i);
    forall p | p in ps && p.key !in worlds[0].server ensures now.server[p.key] == p.record {
      var q :| q in ps && q.key == p.key && q.record == now.server[p.key];
      OnePerKey(config, worlds[0].file, f, p, q);
    }
  }

  lemma OnePerKey(config: Config, state: State, f: InFlight, p: Proposal, q: Proposal)
    requires Own(config, state) && state.inFlight == Some(f) && f.stage.Proposing? && |f.records| == |f.keys|
    requires p in Proposals(f) && q in Proposals(f) && p.key == q.key
    ensures p == q
  {
    assert forall i, j | 0 <= i < j < |f.keys| :: f.keys[i] != f.keys[j];
    assert forall i | 0 <= i < |f.keys| :: Proposals(f)[i].key == f.keys[i];
    hide *;
    var a :| 0 <= a < |f.keys| && Proposals(f)[a] == p;
    var b :| 0 <= b < |f.keys| && Proposals(f)[b] == q;
  }

  // ---- What a fresh tick proposes ----

  predicate SendsNothing(effects: seq<Effect>) {
    forall i | 0 <= i < |effects| :: effects[i].Persist?
  }

  lemma {:induction false} PersistsSendNothing(w: World, effects: seq<Effect>)
    requires SendsNothing(effects)
    ensures After(w, effects).sent == w.sent && After(w, effects).server == w.server
  {
    if effects != [] {
      var front := effects[..|effects| - 1];
      assert forall i | 0 <= i < |front| :: front[i] == effects[i];
      PersistsSendNothing(w, front);
    }
  }

  /** The proposal is of this claim, which is shared and not known. */
  predicate Proposes(config: Config, inputs: Inputs, c: Claim, p: Proposal) {
    var text := Squeeze(c.text);
    && p.record.claim.claimType == c.claimType && p.record.claim.text == text
    && config.shared(text) && !inputs.known(text)
    && (c.confidence.Number? && 0.0 <= c.confidence.value <= 1.0 ==> p.record.claim.confidence == c.confidence)
    && (c.confidence.Absent? ==> p.record.claim.confidence == Number(0.5))
    && (c.confidence.Words? ==>
          match config.numeric(c.confidence.text)
          case None => p.record.claim.confidence.Absent?
          case Some(v) => 0.0 <= v <= 1.0 ==> p.record.claim.confidence == Number(v))
  }

  /** It is filed under the session's identity and revision, and says where and when it was found. */
  predicate FiledFor(config: Config, s: Session, inputs: Inputs, p: Proposal) {
    && p.key.identity == s.identity && p.key.revision == s.revision
    && p.key.claim == config.normalize(p.record.claim.text)
    && p.record.identity == s.identity && inputs.triage == Some(p.record.transcript) && p.record.at == inputs.now
  }

  /** The proposals that a fresh tick persists. */
  function FreshProposals(config: Config, s: Session, inputs: Inputs): (ps: seq<Proposal>)
    requires inputs.triage.Some?
    ensures var records := BuildRecords(PaidClaims(config, inputs), s, inputs);
      && |ps| == |records|
      && forall k | 0 <= k < |ps| ::
           ps[k] == Proposal(KeyOf(config, s.identity, s.revision, records[k].claim.text), SavedRecord(records[k]))
  {
    var claims := PaidClaims(config, inputs);
    Proposals(ProposingEntry(config, s, inputs.next, claims, BuildRecords(claims, s, inputs)))
  }

  /** Three states are persisted before the first proposal is sent. */
  lemma FreshSplits(config: Config, state: State, s: Session, inputs: Inputs)
    requires inputs.triage.Some? && !inputs.constrained && Reserve(config, state.days, inputs.day).Some?
    requires ValidClaims(config, inputs.model)
    ensures var effects, claims := FreshEffects(config, state, s, inputs), PaidClaims(config, inputs);
      var done := DoneState(config, state, s, inputs);
      var f := ProposingEntry(config, s, inputs.next, claims, BuildRecords(claims, s, inputs));
      && |effects| >= 3 && SendsNothing(effects[..3])
      && effects[3..] == [Persist(done.(inFlight := Some(f)))] + Sends(FreshProposals(config, s, inputs))
                         + [Persist(MovedOn(done, inputs.next))]
  {
    hide FreshEffects, ValidClaims, PaidClaims, BuildRecords, DoneState, PendingState, Reserve, Proposals,
      ProposingEntry, Sends;
    FreshShape(config, state, s, inputs);
  }

  lemma FreshSent(config: Config, w: World, inputs: Inputs)
    requires CallsModel(config, w.file, inputs) && ValidClaims(config, inputs.model)
    ensures var now := After(w, Effects(config, w.file, inputs));
      var ps := FreshProposals(config, inputs.session.value, inputs);
      now.sent == w.sent + ps && forall p | p in ps :: p.key in now.server
  {
    var s := inputs.session.value;
    var effects := Effects(config, w.file, inputs);
    assert effects == FreshEffects(config, w.file, s, inputs);
    assert Reserve(config, w.file.days, inputs.day).Some? && !inputs.constrained && inputs.triage.Some?;
    hide *;
    FreshSplits(config, w.file, s, inputs);
    var claims, done := PaidClaims(config, inputs), DoneState(config, w.file, s, inputs);
    var f := ProposingEntry(config, s, inputs.next, claims, BuildRecords(claims, s, inputs));
    SentAtEnd(w, effects, done.(inFlight := Some(f)), FreshProposals(config, s, inputs), MovedOn(done, inputs.next));
  }

  lemma FreshRecord(config: Config, s: Session, inputs: Inputs, p: Proposal)
    requires inputs.triage.Some? && ValidClaims(config, inputs.model) && p in FreshProposals(config, s, inputs)
    ensures FiledFor(config, s, inputs, p) && exists c | c in inputs.model :: Proposes(config, inputs, c, p)
  {
    var claims, ps := PaidClaims(config, inputs), FreshProposals(config, s, inputs);
    var records := BuildRecords(claims, s, inputs);
    PaidAreVetted(config, inputs);
    BuiltIffUnknown(claims, s, inputs);
    RecordsSay(claims, s, inputs);
    hide ValidClaims, BuildRecords, PaidClaims, Vetted, FreshProposals, Validated, Proposes;
    var k :| 0 <= k < |ps| && ps[k] == p;
    assert records[k] in records;
    ClaimOf(config, inputs, records[k].claim, p);
  }

  lemma FreshClaim(config: Config, s: Session, inputs: Inputs, c: Claim) returns (p: Proposal)
    requires inputs.triage.Some? && ValidClaims(config, inputs.model) && c in inputs.model
    requires config.shared(Squeeze(c.text)) && !inputs.known(Squeeze(c.text))
    ensures p in FreshProposals(config, s, inputs) && Proposes(config, inputs, c, p)
  {
    var claims, ps := PaidClaims(config, inputs), FreshProposals(config, s, inputs);
    var records := BuildRecords(claims, s, inputs);
    var v := Claim(c.claimType, Squeeze(c.text), Rated(config, c.confidence));
    var i :| 0 <= i < |inputs.model| && inputs.model[i] == c;
    assert Validated(config, inputs.model)[i] == v;
    PaidAreVetted(config, inputs);
    BuiltIffUnknown(claims, s, inputs);
    hide *;
    assert v in Validated(config, inputs.model);
    var r := MemoryRecord(v, s.identity, inputs.triage.value, inputs.now);
    assert v in claims && !inputs.known(v.text) && r in records;
    var k :| 0 <= k < |records| && records[k] == r;
    p := ps[k];
    SavedProposes(config, s, inputs, c, p);
  }

  lemma SavedProposes(config: Config, s: Session, inputs: Inputs, c: Claim, p: Proposal)
    requires inputs.triage.Some? && config.shared(Squeeze(c.text)) && !inputs.known(Squeeze(c.text))
    requires p.record == SavedRecord(MemoryRecord(Claim(c.claimType, Squeeze(c.text), Rated(config, c.confidence)),
                                                  s.identity, inputs.triage.value, inputs.now))
    ensures Proposes(config, inputs, c, p)
  {
    hide Squeeze;
  }

  /** A fresh tick that gets to its end has sent exactly one proposal for each claim of the model that is shared and
      not known, and no other. */
  lemma FreshSends(config: Config, w: World, inputs: Inputs) returns (ps: seq<Proposal>)
    requires CallsModel(config, w.file, inputs) && ValidClaims(config, inputs.model)
    ensures var now := After(w, Effects(config, w.file, inputs));
      now.sent == w.sent + ps && forall p | p in ps :: p.key in now.server
    ensures forall p | p in ps :: FiledFor(config, inputs.session.value, inputs, p)
    ensures forall p | p in ps :: exists c | c in inputs.model :: Proposes(config, inputs, c, p)
    ensures forall c | c in inputs.model && config.shared(Squeeze(c.text)) && !inputs.known(Squeeze(c.text)) ::
      exists p | p in ps :: Proposes(config, inputs, c, p)
    ensures forall i, j | 0 <= i < j < |ps| :: ps[i].key != ps[j].key
  {
    var s, claims := inputs.session.value, PaidClaims(config, inputs);
    ps := FreshProposals(config, s, inputs);
    FreshSent(config, w, inputs);
    PaidAreVetted(config, inputs);
    VettedAreUnlike(config, claims);
    BuiltAreDrawn(config, claims, s, inputs);
    hide Effects, After, Resume, Runnable, Reserve, ValidClaims, PaidClaims, BuildRecords, FreshProposals, Squeeze,
      Vetted, Proposes, FiledFor;
    forall p | p in ps
      ensures FiledFor(config, s, inputs, p) && exists c | c in inputs.model :: Proposes(config, inputs, c, p)
    {
      FreshRecord(config, s, inputs, p);
    }
    forall c | c in inputs.model && config.shared(Squeeze(c.text)) && !inputs.known(Squeeze(c.text))
      ensures exists p | p in ps :: Proposes(config, inputs, c, p)
    {
      var p := FreshClaim(config, s, inputs, c);
    }
  }

  /** Each record of a fresh tick says where and when its claim was found. */
  lemma {:induction false} RecordsSay(claims: seq<Claim>, s: Session, inputs: Inputs)
    requires inputs.triage.Some?
    ensures forall r | r in BuildRecords(claims, s, inputs) ::
      r.transcript == inputs.triage.value && r.at == inputs.now && r.identity == s.identity
  {
    if claims != [] { RecordsSay(claims[1..], s, inputs); }
  }

  /** The claim of the model that a shared claim comes from. */
  lemma ClaimOf(config: Config, inputs: Inputs, v: Claim, p: Proposal)
    requires v in Validated(config, inputs.model) && config.shared(v.text) && !inputs.known(v.text)
    requires p.record.claim == SavedClaim(v)
    ensures exists c | c in inputs.model :: Proposes(config, inputs, c, p)
  {
    var i :| 0 <= i < |inputs.model| && Validated(config, inputs.model)[i] == v;
    assert inputs.model[i] in inputs.model && Proposes(config, inputs, inputs.model[i], p);
  }

  lemma SentAtEnd(w: World, effects: seq<Effect>, first: State, ps: seq<Proposal>, last: State)
    requires |effects| >= 3 && SendsNothing(effects[..3])
    requires effects[3..] == [Persist(first)] + Sends(ps) + [Persist(last)]
    ensures After(w, effects).sent == w.sent + ps
    ensures forall p | p in ps :: p.key in After(w, effects).server
  {
    hide StoreAll, Sends;
    assert effects[..|effects|] == effects;
    AfterTail(w, effects, 3, |effects|);
    PersistsSendNothing(w, effects[..3]);
    var before, tail := After(w, effects[..3]), effects[3..];
    ProposingPrefix(before, first, ps, last, tail, |tail|);
    assert tail[..|tail|] == tail;
    StoredAll(before.server, ps);
  }

  /** An answer of the model that has been persisted is not asked for again: the next tick for the same session
      resumes it, calls no model, and leaves the budget alone. */
  lemma PaidOnce(config: Config, state: State, inputs: Inputs, f: InFlight)
    requires Own(config, state) && state.inFlight == Some(f) && f.stage.ModelDone? && config.loads(f.session)
    requires inputs.session == Some(Session(f.session, f.identity, f.revision)) && inputs.triage.Some?
    ensures MovesOn(config, state, inputs) && !CallsModel(config, state, inputs)
    ensures forall e | e in Effects(config, state, inputs) && e.Persist? :: e.state.days == state.days
  {
    var s := inputs.session.value;
    var claims := Validated(config, f.claims);
    assert Resume(config, state.inFlight, s) == Resumed(f.(claims := claims));
    hide ValidClaims, ValidRecords, BuildRecords, Own, Resume, Validated, ProposeEffects;
    var records := BuildRecords(claims, s, inputs);
    var effects := ProposeEffects(config, state, s, inputs, claims, records);
    ProposeShape(config, state, s, inputs, claims, records);
    var entry := ProposingEntry(config, s, inputs.next, claims, records);
    forall k | 0 < k < |effects| - 1 ensures effects[k].Send? {
      assert effects[(k - 1) + 1] == Send(Proposals(entry)[k - 1]);
    }
  }

  // ---- What is sent, whatever the file holds ----

  /** Every proposal that is sent is filed under the session's identity and revision and under its own claim, and no
      two under the same key; records taken over from the file have a score. */
  ghost predicate SendsOnlyFiled(config: Config, s: Session, scored: bool, effects: seq<Effect>) {
    && (forall i | 0 <= i < |effects| && effects[i].Send? ::
          var p := effects[i].proposal;
          && p.key.identity == s.identity && p.key.revision == s.revision && p.record.identity == s.identity
          && p.key.claim == config.normalize(p.record.claim.text)
          && (scored ==> p.record.claim.confidence.Number? && 0.0 <= p.record.claim.confidence.value <= 1.0))
    && (forall i, j | 0 <= i < j < |effects| && effects[i].Send? && effects[j].Send? ::
          effects[i].proposal.key != effects[j].proposal.key)
  }

  lemma ProposeSendsFiled(config: Config, state: State, s: Session, inputs: Inputs, claims: seq<Claim>,
                          records: seq<MemoryRecord>, scored: bool)
    requires Drawn(config, records, claims, s.identity)
    requires scored ==> forall k | 0 <= k < |records| :: Scored(records[k])
    ensures SendsOnlyFiled(config, s, scored, ProposeEffects(config, state, s, inputs, claims, records))
  {
    var effects := ProposeEffects(config, state, s, inputs, claims, records);
    forall i | 0 <= i < |effects| && effects[i].Send?
      ensures 0 < i <= |records|
      ensures effects[i].proposal.record == SavedRecord(records[i - 1])
      ensures effects[i].proposal.key == KeyOf(config, s.identity, s.revision, records[i - 1].claim.text)
    {
      SentIs(config, state, s, inputs, claims, records, i);
    }
    hide ProposeEffects;
  }

  lemma SentIs(config: Config, state: State, s: Session, inputs: Inputs, claims: seq<Claim>,
               records: seq<MemoryRecord>, i: nat)
    requires var effects := ProposeEffects(config, state, s, inputs, claims, records);
      i < |effects| && effects[i].Send?
    ensures 0 < i <= |records|
    ensures ProposeEffects(config, state, s, inputs, claims, records)[i]
         == Send(Proposal(KeyOf(config, s.identity, s.revision, records[i - 1].claim.text), SavedRecord(records[i - 1])))
  {
    hide ProposeEffects, KeyOf, SavedRecord;
    var f := ProposingEntry(config, s, inputs.next, claims, records);
    ProposeShape(config, state, s, inputs, claims, records);
    if 0 < i <= |records| {
      assert ProposeEffects(config, state, s, inputs, claims, records)[(i - 1) + 1] == Send(Proposals(f)[i - 1]);
      assert f.keys[i - 1] == KeyOf(config, s.identity, s.revision, records[i - 1].claim.text);
    }
  }

  /** This holds of any state file, even one that the extractor has not written. */
  lemma SentIsFiled(config: Config, state: State, inputs: Inputs)
    requires inputs.session.Some?
    ensures SendsOnlyFiled(config, inputs.session.value,
                           state.inFlight.Some? && state.inFlight.value.stage.Proposing?
                           && Resume(config, state.inFlight, inputs.session.value).Resumed?,
                           Effects(config, state, inputs))
  {
    hide SendsOnlyFiled, ProposeEffects, FreshEffects, ValidClaims, Drawn, Unlike, Vetted, BuildRecords, Matches;
    var s := inputs.session.value;
    if !Runnable(config, state) || inputs.triage.None? || Resume(config, state.inFlight, s).Throws? {
      NothingSent(config, state, inputs);
    } else if Resume(config, state.inFlight, s).Resumed? {
      ResumedIsFiled(config, state, inputs);
    } else {
      FreshIsFiled(config, state, s, inputs);
    }
  }

  lemma NothingSent(config: Config, state: State, inputs: Inputs)
    requires inputs.session.Some?
    requires !Runnable(config, state) || inputs.triage.None?
             || Resume(config, state.inFlight, inputs.session.value).Throws?
    ensures forall scored :: SendsOnlyFiled(config, inputs.session.value, scored, Effects(config, state, inputs))
  {
    hide ValidClaims, ValidRecords, Matches;
  }

  lemma FreshIsFiled(config: Config, state: State, s: Session, inputs: Inputs)
    requires inputs.triage.Some?
    ensures SendsOnlyFiled(config, s, false, FreshEffects(config, state, s, inputs))
  {
    hide FreshEffects, ProposeEffects, ValidClaims, Drawn, Unlike, Vetted, BuildRecords, PaidClaims, Reserve,
      PendingState, DoneState;
    FreshShape(config, state, s, inputs);
    var effects := FreshEffects(config, state, s, inputs);
    if !inputs.constrained && Reserve(config, state.days, inputs.day).Some? && ValidClaims(config, inputs.model) {
      var claims, done := PaidClaims(config, inputs), DoneState(config, state, s, inputs);
      PaidAreVetted(config, inputs);
      VettedAreUnlike(config, claims);
      BuiltAreDrawn(config, claims, s, inputs);
      ProposeSendsFiled(config, done, s, inputs, claims, BuildRecords(claims, s, inputs), false);
      assert forall i | 3 <= i < |effects| :: effects[i] == effects[3..][i - 3];
    }
  }

  lemma ResumedIsFiled(config: Config, state: State, inputs: Inputs)
    requires Runnable(config, state) && inputs.session.Some? && inputs.triage.Some?
    requires Resume(config, state.inFlight, inputs.session.value).Resumed?
    ensures SendsOnlyFiled(config, inputs.session.value, state.inFlight.value.stage.Proposing?,
                           Effects(config, state, inputs))
  {
    hide SendsOnlyFiled, ProposeEffects, ValidClaims, Vetted, BuildRecords;
    var s := inputs.session.value;
    var f := Resume(config, state.inFlight, s).f;
    if f.stage.Proposing? {
      assert forall i, j | 0 <= i < j < |f.keys| :: f.keys[i] != f.keys[j];
      assert Drawn(config, f.records, f.claims, s.identity);
      ProposeSendsFiled(config, state, s, inputs, f.claims, f.records, true);
    } else {
      hide Drawn, Unlike;
      ValidatedIsVetted(config, state.inFlight.value.claims);
      VettedAreUnlike(config, f.claims);
      BuiltAreDrawn(config, f.claims, s, inputs);
      ProposeSendsFiled(config, state, s, inputs, f.claims, BuildRecords(f.claims, s, inputs), false);
    }
  }

  // ---- The cursor, and what may be dropped ----

  /** The state file gets another cursor only when the triage rejects the session, or as the last effect of a
      tick, when every proposal of that tick has reached the server. */
  lemma CursorMovesLast(config: Config, w: World, inputs: Inputs, k: nat)
    requires k <= |Effects(config, w.file, inputs)|
    ensures var effects := Effects(config, w.file, inputs); var now := After(w, effects[..k]);
      now.file.cursor != w.file.cursor ==>
        && k == |effects| && now.file.cursor == inputs.next && now.file.inFlight.None?
        && (inputs.triage.Some? ==> forall p | Send(p) in effects :: p.key in now.server)
  {
    var effects := Effects(config, w.file, inputs);
    CursorSteady(config, w.file, inputs);
    hide Effects;
    AfterCursor(w, effects, k, w.file.cursor);
    assert effects[..|effects|] == effects;
    if k == |effects| {
      AllArrive(w, effects);
      if effects != [] { EndsWith(w, effects, effects[k - 1].state); }
    }
  }

  /** All states persisted before the last effect have the old cursor. */
  lemma CursorSteady(config: Config, state: State, inputs: Inputs)
    ensures var effects := Effects(config, state, inputs);
      forall i | 0 <= i < |effects| - 1 && effects[i].Persist? :: effects[i].state.cursor == state.cursor
    ensures var effects := Effects(config, state, inputs);
      effects != [] ==>
        && effects[|effects| - 1].Persist?
        && (|| effects[|effects| - 1].state.cursor == state.cursor
            || effects[|effects| - 1].state == State(inputs.next, None, effects[|effects| - 1].state.days))
  {
    hide ValidClaims, ValidRecords, KeysOf, BuildRecords, PaidClaims, Matches, Reserve;
  }

  lemma {:induction false} AfterCursor(w: World, effects: seq<Effect>, k: nat, cursor: Option<string>)
    requires k <= |effects| && w.file.cursor == cursor
    requires forall i | 0 <= i < |effects| - 1 && effects[i].Persist? :: effects[i].state.cursor == cursor
    ensures k < |effects| ==> After(w, effects[..k]).file.cursor == cursor
    decreases k
  {
    if k > 0 {
      AfterCursor(w, effects, k - 1, cursor);
      assert effects[..k][..k - 1] == effects[..k - 1];
    }
  }

  lemma {:induction false} AllArrive(w: World, effects: seq<Effect>)
    ensures forall p | Send(p) in effects :: p.key in After(w, effects).server
    ensures forall key | key in w.server :: key in After(w, effects).server
  {
    if effects != [] {
      var front := effects[..|effects| - 1];
      AllArrive(w, front);
      assert effects == front + [effects[|effects| - 1]];
    }
  }

  /** What a complete tick does to an entry that waits to be proposed. */
  datatype Fate = Waits | CarriedOut | Dropped | Stuck

  function FateOf(config: Config, state: State, f: InFlight, inputs: Inputs): Fate {
    if !config.loads(f.session) then Stuck
    else if inputs.session.None? then Waits
    else if inputs.triage.None? then Dropped
    else if var s := inputs.session.value; f.session == s.id && f.identity == s.identity && f.revision == s.revision
    then if AllScored(f) then CarriedOut else Stuck
    else if inputs.constrained || Reserve(config, state.days, inputs.day).None? then Waits
    else Dropped
  }

  /** The exact conditions: an entry in flight is carried out if and only if page and triage still lead to it, the
      loader takes it and its records have scores; it is stuck if one of the latter two fails; it waits while there
      is no page or while the gates hold back another session; in all other cases its proposals are dropped, none
      of them sent before the file no longer knows them. */
  lemma FateIsExact(config: Config, state: State, inputs: Inputs, f: InFlight)
    requires Own(config, state) && state.inFlight == Some(f) && f.stage.Proposing?
    ensures var effects := Effects(config, state, inputs);
      match FateOf(config, state, f, inputs)
      case Stuck => effects == []
      case Waits => forall i | 0 <= i < |effects| :: effects[i] == Persist(state)
      case CarriedOut =>
        effects == [Persist(state.(inFlight := Some(Again(config, f, inputs.next))))] + Sends(Proposals(f))
                   + [Persist(State(inputs.next, None, state.days))]
      case Dropped =>
        exists i | 0 <= i < |effects| :: effects[i].Persist? && SendsNothing(effects[..i])
          && (effects[i].state.inFlight.None? || effects[i].state.inFlight.value.stage.ModelPending?)
  {
    hide ValidClaims, ValidRecords, ProposeEffects, AllScored, Own, Reserve, Validated;
    match FateOf(config, state, f, inputs)
    case CarriedOut => ResumedEffects(config, state, inputs, f);
    case Waits =>
    case Stuck =>
      if config.loads(f.session) { UnscoredTick(config, state, inputs); }
    case Dropped =>
      var effects := Effects(config, state, inputs);
      if inputs.triage.None? {
        assert effects[0].Persist? && SendsNothing(effects[..0]);
      } else {
        assert effects[1].Persist? && SendsNothing(effects[..1]);
      }
  }

  /** Proposals are lost: once the newest items of the same session fail the triage, a complete tick gives them up
      and sends none of them. */
  lemma RejectedIsLost(config: Config, w: World, inputs: Inputs)
    requires w.file.inFlight.Some? && Runnable(config, w.file) && inputs.session.Some? && inputs.triage.None?
    ensures After(w, Effects(config, w.file, inputs)) == w.(file := State(inputs.next, None, w.file.days))
  {
    var effects := Effects(config, w.file, inputs);
    OneEffect(w, effects);
    assert effects[..1] == effects;
  }
}
