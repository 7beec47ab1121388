/** The crash-resumable extractor tick: a state file with an in-flight stage, and a server that stores
    one proposal per idempotency key. */
module Extractor {
  import opened Wrappers
  import opened Blanks

  /** The confidence of a claim. The model's answer may hold nothing, a number, or anything else, here as its
      text; what Number() makes of a text may be no number. */
  datatype Confidence = Absent | Words(text: string) | Number(value: real) | NotANumber

  datatype Claim = Claim(claimType: string, text: string, confidence: Confidence)

  /** Proposal keys as an injective function of what is hashed: identity, revision and normalised claim. */
  datatype Key = Key(identity: string, revision: Option<string>, claim: string)

  /** The claim of a record carries the score. */
  datatype MemoryRecord = MemoryRecord(claim: Claim, identity: string, transcript: string, at: string)

  datatype Proposal = Proposal(key: Key, record: MemoryRecord)

  datatype Stage = ModelPending | ModelDone | Proposing

  /** While a model call is pending, `day` is the one its tokens are reserved on. */
  datatype InFlight = InFlight(session: string, identity: string, revision: Option<string>, cursor: Option<string>,
                               stage: Stage, day: string, claims: seq<Claim>, keys: seq<Key>,
                               records: seq<MemoryRecord>)

  datatype Tokens = Tokens(input: nat, output: nat)

  /** The tokens of one day. */
  datatype Budget = Budget(reserved: Tokens, used: Tokens)

  datatype State = State(cursor: Option<string>, inFlight: Option<InFlight>, days: map<string, Budget>)

  datatype Session = Session(id: string, identity: string, revision: Option<string>)

  /** The limits, and what the helpers that look at texts decide: `numeric` is what Number() makes of a text
      (None if NaN), `loads` whether the loader accepts an entry with this session id. */
  datatype Config = Config(maxClaims: nat, call: Tokens, daily: Tokens, normalize: string -> string,
                           acceptable: string -> bool, shared: string -> bool, numeric: string -> Option<real>,
                           loads: string -> bool)

  /** What one tick finds: the page, the verdict of the triage (a text if it passes), the plan usage, the model's
      claims and the tokens it used, the claims already known, and the time. */
  datatype Inputs = Inputs(session: Option<Session>, next: Option<string>, triage: Option<string>, constrained: bool,
                           model: seq<Claim>, usage: Tokens, known: string -> bool, now: string, day: string)

  // ---- Claim texts ----

  /** The text up to the first blank. */
  function Word(s: string): (w: string)
    ensures |w| <= |s| && s[..|w|] == w
    ensures s != "" && !Blank(s[0]) ==> w != ""
  {
    if s == "" || Blank(s[0]) then "" else [s[0]] + Word(s[1..])
  }

  /** `s.replace(/\s+/g, ' ').trim()` */
  function Squeeze(s: string): string
    decreases |s|
  {
    if s == "" then ""
    else if Blank(s[0]) then Squeeze(s[1..])
    else
      var rest := Squeeze(s[|Word(s)|..]);
      if rest == "" then Word(s) else Word(s) + " " + rest
  }

  lemma {:induction false} WordAlone(w: string, tail: string)
    requires (forall c | c in w :: !Blank(c)) && (tail == "" || Blank(tail[0]))
    ensures Word(w + tail) == w
  {
    if w == "" {
      assert w + tail == tail;
    } else {
      assert w[0] in w && forall c | c in w[1..] :: c in w;
      assert (w + tail)[1..] == w[1..] + tail;
      WordAlone(w[1..], tail);
    }
  }

  lemma {:induction false} WordHasNoBlank(s: string)
    ensures forall c | c in Word(s) :: !Blank(c)
  {
    if s != "" && !Blank(s[0]) { WordHasNoBlank(s[1..]); }
  }

  lemma {:induction false} SqueezeWord(s: string)
    requires s != "" && !Blank(s[0])
    ensures var rest := Squeeze(s[|Word(s)|..]);
      Squeeze(s) == if rest == "" then Word(s) else Word(s) + (" " + rest)
  {
    var w, rest := Word(s), Squeeze(s[|Word(s)|..]);
    assert w + " " + rest == w + (" " + rest);
  }

  lemma {:induction false} SqueezeBlank(s: string)
    ensures Squeeze(" " + s) == Squeeze(s) && Squeeze("") == ""
  {
    assert (" " + s)[1..] == s;
  }

  lemma {:induction false} SqueezeStep(w: string, rest: string)
    requires w != "" && (forall c | c in w :: !Blank(c))
    ensures Squeeze(w) == w
    ensures Squeeze(rest) == rest && rest != "" ==> Squeeze(w + (" " + rest)) == w + (" " + rest)
  {
    assert w[0] in w && Blank(' ');
    hide Blank, Squeeze, Word;
    WordAlone(w, "");
    assert w + "" == w && w[|w|..] == "";
    SqueezeBlank(rest);
    SqueezeWord(w);
    WordAlone(w, " " + rest);
    var s := w + (" " + rest);
    assert s[|w|..] == " " + rest;
    SqueezeWord(s);
  }

  /** Squeezing twice is squeezing once. */
  lemma {:induction false} SqueezeIdempotent(s: string)
    ensures Squeeze(Squeeze(s)) == Squeeze(s)
    decreases |s|
  {
    if s != "" {
      if Blank(s[0]) {
        SqueezeIdempotent(s[1..]);
      } else {
        hide Squeeze;
        var w := Word(s);
        var rest := Squeeze(s[|w|..]);
        SqueezeIdempotent(s[|w|..]);
        WordHasNoBlank(s);
        SqueezeStep(w, rest);
        SqueezeWord(s);
      }
    }
  }

  /** Two squeezed texts with a space between them, if there is anything to separate. */
  function Spaced(a: string, b: string): string {
    if a == "" then b else if b == "" then a else a + (" " + b)
  }

  lemma SqueezeWordTail(w: string, tail: string)
    requires w != "" && (forall c | c in w :: !Blank(c)) && (tail == "" || Blank(tail[0]))
    ensures Squeeze(w + tail) == Spaced(w, Squeeze(tail))
  {
    assert w[0] in w;
    hide Squeeze, Word;
    WordAlone(w, tail);
    SqueezeWord(w + tail);
    assert (w + tail)[|w|..] == tail;
  }

  lemma WordEnds(s: string)
    requires s != "" && !Blank(s[0])
    ensures Word(s) != "" && (|Word(s)| < |s| ==> Blank(s[|Word(s)|]))
  {
    if |s| > 1 && !Blank(s[1]) { WordEnds(s[1..]); }
  }

  lemma SpacedTwice(a: string, b: string, c: string)
    ensures Spaced(Spaced(a, b), c) == Spaced(a, Spaced(b, c))
  {
    assert (a + (" " + b)) + (" " + c) == a + (" " + (b + (" " + c)));
  }

  /** What a squeezed text is: every blank parts the words before it from the words after it, and a word stays as it
      is. Nothing before or after any blank is dropped, and one space is left of each row of blanks between words. */
  lemma {:induction false} SqueezeSplits(a: string, c: char, b: string)
    requires Blank(c)
    ensures Squeeze(a + ([c] + b)) == Spaced(Squeeze(a), Squeeze(b))
    decreases |a|
  {
    hide *;
    if a == "" {
      SqueezeStart(c, b);
    } else if Blank(a[0]) {
      SqueezeSplits(a[1..], c, b);
      SkipBlank(a, [c] + b);
    } else {
      var w := Word(a);
      var tail := a[|w|..];
      WordHasNoBlank(a);
      WordEnds(a);
      SqueezeSplits(tail, c, b);
      assert a == w + tail;
      TakeWord(w, tail, [c] + b);
      SqueezeWordTail(w, tail);
      SqueezeWordTail(w, tail + ([c] + b));
      SpacedTwice(w, Squeeze(tail), Squeeze(b));
    }
  }

  lemma SqueezeStart(c: char, b: string)
    requires Blank(c)
    ensures Squeeze("" + ([c] + b)) == Spaced(Squeeze(""), Squeeze(b))
  {
    assert "" + ([c] + b) == [c] + b && ([c] + b)[1..] == b;
    SqueezeSkips([c] + b);
    SqueezeBlank("");
  }

  lemma SkipBlank(a: string, more: string)
    requires a != "" && Blank(a[0])
    ensures Squeeze(a + more) == Squeeze(a[1..] + more) && Squeeze(a) == Squeeze(a[1..])
  {
    hide Blank, Squeeze;
    assert (a + more)[1..] == a[1..] + more;
    SqueezeSkips(a);
    SqueezeSkips(a + more);
  }

  lemma TakeWord(w: string, tail: string, more: string)
    ensures (w + tail) + more == w + (tail + more)
  {
  }

  lemma SqueezeSkips(s: string)
    requires s != "" && Blank(s[0])
    ensures Squeeze(s) == Squeeze(s[1..])
  {
  }

  lemma SqueezeKeepsWords(w: string)
    requires forall c | c in w :: !Blank(c)
    ensures Squeeze(w) == w
  {
    if w != "" { SqueezeStep(w, ""); }
  }

  // ---- Claims, keys and records ----

  predicate Eligible(claimType: string) {
    claimType in {"decision", "preference", "instruction", "summary"}
  }

  /** What validateClaims accepts. */
  predicate ValidClaims(config: Config, claims: seq<Claim>) {
    && |claims| <= config.maxClaims
    && (forall i | 0 <= i < |claims| :: Eligible(claims[i].claimType) && config.acceptable(Squeeze(claims[i].text)))
    && (forall i, j | 0 <= i < j < |claims| ::
          config.normalize(Squeeze(claims[i].text)) != config.normalize(Squeeze(claims[j].text)))
  }

  function Clamped(v: real): real {
    if v < 0.0 then 0.0 else if v > 1.0 then 1.0 else v
  }

  function Distance(a: real, b: real): real {
    if a < b then b - a else a - b
  }

  /** Among the scores between 0 and 1, no other one is as near. */
  lemma ClampedIsNearest(v: real, w: real)
    requires 0.0 <= w <= 1.0 && w != Clamped(v)
    ensures 0.0 <= Clamped(v) <= 1.0 && Distance(v, Clamped(v)) < Distance(v, w)
  {
  }

  /** `Math.max(0, Math.min(1, Number(confidence ?? 0.5)))`, which lets NaN through. */
  function Rated(config: Config, c: Confidence): Confidence {
    match c
    case Absent => Number(0.5)
    case Number(v) => Number(Clamped(v))
    case NotANumber => NotANumber
    case Words(t) =>
      match config.numeric(t)
      case None => NotANumber
      case Some(v) => Number(Clamped(v))
  }

  function Validated(config: Config, claims: seq<Claim>): (r: seq<Claim>)
    ensures |r| == |claims|
    ensures forall i | 0 <= i < |claims| ::
      r[i] == Claim(claims[i].claimType, Squeeze(claims[i].text), Rated(config, claims[i].confidence))
  {
    seq(|claims|, i requires 0 <= i < |claims| =>
      Claim(claims[i].claimType, Squeeze(claims[i].text), Rated(config, claims[i].confidence)))
  }

  /** validateClaims: claim by claim, each new one compared with the normalised texts seen before. */
  method ValidateClaims(config: Config, value: seq<Claim>) returns (claims: Option<seq<Claim>>)
    ensures claims.Some? <==> ValidClaims(config, value)
    ensures claims.Some? ==> claims.value == Validated(config, value)
  {
    hide Squeeze, Rated;
    if |value| > config.maxClaims { return None; }
    var seen: set<string> := {};
    var accepted: seq<Claim> := [];
    for i := 0 to |value|
      invariant |accepted| == i && forall k | 0 <= k < i ::
        accepted[k] == Claim(value[k].claimType, Squeeze(value[k].text), Rated(config, value[k].confidence))
      invariant forall k | 0 <= k < i :: Eligible(value[k].claimType) && config.acceptable(Squeeze(value[k].text))
      invariant forall t :: t in seen <==> exists k :: 0 <= k < i && config.normalize(Squeeze(value[k].text)) == t
      invariant forall k, j | 0 <= k < j < i ::
        config.normalize(Squeeze(value[k].text)) != config.normalize(Squeeze(value[j].text))
    {
      var claimType := value[i].claimType;
      if claimType != "decision" && claimType != "preference" && claimType != "instruction" && claimType != "summary" {
        return None;
      }
      var text := Squeeze(value[i].text);
      if !config.acceptable(text) || config.normalize(text) in seen { return None; }
      seen := seen + {config.normalize(text)};
      accepted := accepted + [Claim(claimType, text, Rated(config, value[i].confidence))];
    }
    assert accepted == Validated(config, value);
    claims := Some(accepted);
  }

  function SharedClaims(config: Config, candidates: seq<Claim>): seq<Claim> {
    if candidates == [] then []
    else (if config.shared(candidates[0].text) then [candidates[0]] else []) + SharedClaims(config, candidates[1..])
  }

  /** The claims that an accepted answer of the model leaves. */
  function PaidClaims(config: Config, inputs: Inputs): seq<Claim> {
    SharedClaims(config, Validated(config, inputs.model))
  }

  function KeyOf(config: Config, identity: string, revision: Option<string>, claim: string): Key {
    Key(identity, revision, config.normalize(claim))
  }

  /** A record for each claim that is not known yet. */
  function BuildRecords(claims: seq<Claim>, s: Session, inputs: Inputs): seq<MemoryRecord>
    requires inputs.triage.Some?
  {
    if claims == [] then []
    else
      var rest := BuildRecords(claims[1..], s, inputs);
      if inputs.known(claims[0].text) then rest
      else [MemoryRecord(claims[0], s.identity, inputs.triage.value, inputs.now)] + rest
  }

  function KeysOf(config: Config, s: Session, records: seq<MemoryRecord>): (keys: seq<Key>)
    ensures |keys| == |records|
    ensures forall i | 0 <= i < |records| :: keys[i] == KeyOf(config, s.identity, s.revision, records[i].claim.text)
  {
    if records == [] then []
    else [KeyOf(config, s.identity, s.revision, records[0].claim.text)] + KeysOf(config, s, records[1..])
  }

  /** Two keys are equal exactly if identity, revision and normalised text are. */
  lemma KeysTellApart(config: Config, a: Session, b: Session, x: string, y: string)
    ensures KeyOf(config, a.identity, a.revision, x) == KeyOf(config, b.identity, b.revision, y) <==>
      a.identity == b.identity && a.revision == b.revision && config.normalize(x) == config.normalize(y)
  {
  }

  predicate InRange(c: Confidence) {
    c.Number? && 0.0 <= c.value <= 1.0
  }

  /** The record validator asks for a finite score between 0 and 1. */
  predicate Scored(r: MemoryRecord) {
    InRange(r.claim.confidence)
  }

  /** What validatePersistedProposalRecords accepts, given the claims as they have been validated again. */
  predicate ValidRecords(config: Config, f: InFlight, claims: seq<Claim>) {
    && |f.records| == |f.keys|
    && (forall i, j | 0 <= i < j < |f.keys| :: f.keys[i] != f.keys[j])
    && (forall i | 0 <= i < |f.records| ::
          && f.records[i].claim in claims && Scored(f.records[i]) && f.records[i].identity == f.identity
          && f.keys[i] == KeyOf(config, f.identity, f.revision, f.records[i].claim.text))
  }

  // ---- JSON ----

  /** JSON.stringify writes NaN as null. */
  function SavedClaim(c: Claim): Claim {
    if c.confidence.NotANumber? then c.(confidence := Absent) else c
  }

  function SavedRecord(r: MemoryRecord): MemoryRecord {
    r.(claim := SavedClaim(r.claim))
  }

  function SavedClaims(claims: seq<Claim>): (r: seq<Claim>)
    ensures |r| == |claims| && forall i | 0 <= i < |claims| :: r[i] == SavedClaim(claims[i])
  {
    seq(|claims|, i requires 0 <= i < |claims| => SavedClaim(claims[i]))
  }

  function SavedRecords(records: seq<MemoryRecord>): (r: seq<MemoryRecord>)
    ensures |r| == |records| && forall i | 0 <= i < |records| :: r[i] == SavedRecord(records[i])
  {
    seq(|records|, i requires 0 <= i < |records| => SavedRecord(records[i]))
  }

  function SavedEntry(f: InFlight): InFlight {
    f.(claims := SavedClaims(f.claims), records := SavedRecords(f.records))
  }

  /** What reading the state file gives back. */
  function Saved(state: State): State {
    if state.inFlight.None? then state else state.(inFlight := Some(SavedEntry(state.inFlight.value)))
  }

  /** The requests that propose the records, with the bodies as the server reads them. */
  function Proposals(f: InFlight): (r: seq<Proposal>)
    requires |f.records| == |f.keys|
    ensures |r| == |f.records|
  {
    seq(|f.records|, i requires 0 <= i < |f.records| => Proposal(f.keys[i], SavedRecord(f.records[i])))
  }

  // ---- The token budget ----

  function Plus(a: Tokens, b: Tokens): Tokens {
    Tokens(a.input + b.input, a.output + b.output)
  }

  predicate AtMost(a: Tokens, b: Tokens) {
    a.input <= b.input && a.output <= b.output
  }

  const NONE := Tokens(0, 0)

  function BudgetOf(days: map<string, Budget>, day: string): Budget {
    if day in days then days[day] else Budget(NONE, NONE)
  }

  /** A day that is not there yet has nothing reserved and nothing used. */
  lemma NewDay(days: map<string, Budget>, day: string)
    ensures day in days ==> BudgetOf(days, day) == days[day]
    ensures day !in days ==> BudgetOf(days, day) == Budget(Tokens(0, 0), Tokens(0, 0))
  {
  }

  /** reserveModelBudget: None if the day's budget does not allow another call. */
  function Reserve(config: Config, days: map<string, Budget>, day: string): Option<map<string, Budget>> {
    var b := BudgetOf(days, day);
    if AtMost(Plus(Plus(b.used, b.reserved), config.call), config.daily)
    then Some(days[day := Budget(Plus(b.reserved, config.call), b.used)]) else None
  }

  function Minus(a: nat, b: nat): nat {
    if a < b then 0 else a - b
  }

  /** settleModelBudget after a reservation. */
  function Settle(config: Config, days: map<string, Budget>, day: string, usage: Tokens): map<string, Budget> {
    var b := BudgetOf(days, day);
    var left := Tokens(Minus(b.reserved.input, config.call.input), Minus(b.reserved.output, config.call.output));
    days[day := Budget(left, Plus(b.used, usage))]
  }

  // ---- One tick as the effects it has, in order ----

  datatype Effect = Persist(state: State) | Send(proposal: Proposal)

  datatype Resumption = Nothing | Throws | Resumed(f: InFlight)

  predicate Matches(f: InFlight, s: Session) {
    f.session == s.id && f.identity == s.identity && f.revision == s.revision
  }

  /** resumeExtractorInFlight */
  function Resume(config: Config, inFlight: Option<InFlight>, s: Session): Resumption {
    if inFlight.None? then Nothing
    else
      var f := inFlight.value;
      if f.stage.ModelPending? then Throws
      else if !Matches(f, s) then Nothing
      else if !ValidClaims(config, f.claims) then Throws
      else if f.stage.Proposing? && !ValidRecords(config, f, Validated(config, f.claims)) then Throws
      else Resumed(f.(claims := Validated(config, f.claims)))
  }

  /** The loader and the check after it let the tick begin. */
  predicate Runnable(config: Config, state: State) {
    state.inFlight.Some? ==>
      config.loads(state.inFlight.value.session) && !state.inFlight.value.stage.ModelPending?
  }

  /** The in-flight entry of the proposing stage. */
  function ProposingEntry(config: Config, s: Session, next: Option<string>,
                          claims: seq<Claim>, records: seq<MemoryRecord>): InFlight
  {
    InFlight(s.id, s.identity, s.revision, next, Proposing, "", claims, KeysOf(config, s, records), records)
  }

  function Sends(proposals: seq<Proposal>): (effects: seq<Effect>)
    ensures |effects| == |proposals| && forall i | 0 <= i < |proposals| :: effects[i] == Send(proposals[i])
  {
    seq(|proposals|, i requires 0 <= i < |proposals| => Send(proposals[i]))
  }

  function MovedOn(state: State, next: Option<string>): State {
    state.(cursor := next, inFlight := None)
  }

  /** Persist the records, send them all, move on. */
  function ProposeEffects(config: Config, state: State, s: Session, inputs: Inputs,
                          claims: seq<Claim>, records: seq<MemoryRecord>): seq<Effect>
  {
    var f := ProposingEntry(config, s, inputs.next, claims, records);
    [Persist(state.(inFlight := Some(f)))] + Sends(Proposals(f)) + [Persist(MovedOn(state, inputs.next))]
  }

  function PendingEntry(s: Session, inputs: Inputs): InFlight {
    InFlight(s.id, s.identity, s.revision, inputs.next, ModelPending, inputs.day, [], [], [])
  }

  function DoneEntry(s: Session, next: Option<string>, claims: seq<Claim>): InFlight {
    InFlight(s.id, s.identity, s.revision, next, ModelDone, "", claims, [], [])
  }

  /** The state while the model is called, and after its answer. */
  function PendingState(config: Config, state: State, s: Session, inputs: Inputs): State
    requires Reserve(config, state.days, inputs.day).Some?
  {
    state.(inFlight := Some(PendingEntry(s, inputs)), days := Reserve(config, state.days, inputs.day).value)
  }

  function DoneState(config: Config, state: State, s: Session, inputs: Inputs): State
    requires Reserve(config, state.days, inputs.day).Some?
  {
    state.(inFlight := Some(DoneEntry(s, inputs.next, PaidClaims(config, inputs))),
           days := Settle(config, Reserve(config, state.days, inputs.day).value, inputs.day, inputs.usage))
  }

  /** A fresh extraction: the gates, then the model between two persisted stages. */
  function FreshEffects(config: Config, state: State, s: Session, inputs: Inputs): seq<Effect>
    requires inputs.triage.Some?
  {
    if inputs.constrained || Reserve(config, state.days, inputs.day).None? then [Persist(state)]
    else
      [Persist(state), Persist(PendingState(config, state, s, inputs))]
      + if !ValidClaims(config, inputs.model) then []
        else
          var done, claims := DoneState(config, state, s, inputs), PaidClaims(config, inputs);
          [Persist(done)] + ProposeEffects(config, done, s, inputs, claims, BuildRecords(claims, s, inputs))
  }

  /** Everything a tick persists or sends if nothing stops it. */
  function Effects(config: Config, state: State, inputs: Inputs): seq<Effect> {
    if !Runnable(config, state) then []
    else if inputs.session.None? then []
    else if inputs.triage.None? then [Persist(MovedOn(state, inputs.next))]
    else
      var s := inputs.session.value;
      match Resume(config, state.inFlight, s)
      case Throws => []
      case Nothing => FreshEffects(config, state, s, inputs)
      case Resumed(f) =>
        ProposeEffects(config, state, s, inputs, f.claims,
                       if f.stage.Proposing? then f.records else BuildRecords(f.claims, s, inputs))
  }

  // ---- The world a tick acts on ----

  datatype World = World(file: State, server: map<Key, MemoryRecord>, sent: seq<Proposal>)

  /** A server that stores the first record it sees under a key. */
  function Store(server: map<Key, MemoryRecord>, p: Proposal): map<Key, MemoryRecord> {
    if p.key in server then server else server[p.key := p.record]
  }

  function Do(w: World, e: Effect): World {
    match e
    case Persist(state) => w.(file := Saved(state))
    case Send(p) => World(w.file, Store(w.server, p), w.sent + [p])
  }

  /** The effects carried out in order. */
  function After(w: World, effects: seq<Effect>): World {
    if effects == [] then w else Do(After(w, effects[..|effects| - 1]), effects[|effects| - 1])
  }

  lemma AfterNext(w: World, effects: seq<Effect>, e: Effect)
    ensures After(w, effects + [e]) == Do(After(w, effects), e)
  {
    assert (effects + [e])[..|effects|] == effects;
  }

  /** What the temporary file of a state can hold: the whole text, or part of it. */
  datatype Draft = Whole(state: State) | Torn

  /** The tick gets past its gates to the model. */
  predicate CallsModel(config: Config, state: State, inputs: Inputs) {
    && Runnable(config, state) && inputs.session.Some? && inputs.triage.Some?
    && Resume(config, state.inFlight, inputs.session.value).Nothing?
    && !inputs.constrained && Reserve(config, state.days, inputs.day).Some?
  }

  /** The tick gets to the end of its session: the triage rejects it, the entry in flight is resumed, or the model
      gives an answer that is accepted. */
  predicate MovesOn(config: Config, state: State, inputs: Inputs) {
    && Runnable(config, state) && inputs.session.Some?
    && (|| inputs.triage.None?
        || Resume(config, state.inFlight, inputs.session.value).Resumed?
        || (CallsModel(config, state, inputs) && ValidClaims(config, inputs.model)))
  }

  /** The day had room for one more call, what the call has used is added to it, and nothing else changes. */
  predicate Spends(config: Config, days: map<string, Budget>, now: map<string, Budget>, inputs: Inputs) {
    var day := inputs.day;
    var b := BudgetOf(days, day);
    && day in now && now[day].reserved == b.reserved
    && now[day].used.input == b.used.input + inputs.usage.input
    && now[day].used.output == b.used.output + inputs.usage.output
    && b.used.input + b.reserved.input + config.call.input <= config.daily.input
    && b.used.output + b.reserved.output + config.call.output <= config.daily.output
    && now - {day} == days - {day}
  }

  class Runner {
    var file: State
    /** The temporary file beside it. */
    var temporary: Option<Draft>
    var server: map<Key, MemoryRecord>
    var sent: seq<Proposal>
    var clock: nat
    /** The process dies, or a call fails, at this step. */
    const stop: nat -> bool
    /** A request that was not answered has reached the server nevertheless. */
    const delivered: nat -> bool

    constructor (file: State, server: map<Key, MemoryRecord>, stop: nat -> bool, delivered: nat -> bool)
      ensures Now() == World(file, server, []) && this.stop == stop && this.delivered == delivered
    {
      this.file, this.server, sent, clock := file, server, [], 0;
      temporary := None;
      this.stop, this.delivered := stop, delivered;
    }

    function Now(): World reads this {
      World(file, server, sent)
    }

    /** Some call since `from` was stopped. */
    ghost predicate Stopped(from: nat) reads this {
      exists n :: from <= n < clock && stop(n)
    }

    /** writeState: the text goes to a temporary file, which is then renamed and made private. Stopped
        anywhere, the state file is the old one or the new one, even if the temporary one is torn; and it can
        be the new one although the call fails. */
    method WriteState(state: State) returns (ok: bool, ghost reached: bool)
      modifies this
      ensures Now() == if reached then Do(old(Now()), Persist(state)) else old(Now())
      ensures ok ==> reached
      ensures reached ==> temporary.None?
      ensures clock > old(clock) && (!ok ==> Stopped(old(clock)))
    {
      ghost var now := clock;
      reached := false;
      temporary := Some(if stop(clock) then Torn else Whole(Saved(state)));
      clock := clock + 1;
      if temporary.value.Torn? {
        assert stop(now);
        return false, false;
      }
      now := clock;
      var renamed := !stop(clock);
      clock := clock + 1;
      if !renamed {
        assert stop(now);
        return false, false;
      }
      file, temporary := temporary.value.state, None;
      now := clock;
      ok := !stop(clock);
      clock := clock + 1;
      assert !ok ==> stop(now);
      reached := true;
    }

    /** Any request that changes nothing. */
    method Fetch() returns (ok: bool)
      modifies this`clock
      ensures clock > old(clock) && (!ok ==> Stopped(old(clock)))
    {
      ghost var now := clock;
      ok := !stop(clock);
      clock := clock + 1;
      assert !ok ==> stop(now);
    }

    method SendProposal(p: Proposal) returns (ok: bool, ghost reached: bool)
      modifies this
      ensures Now() == if reached then Do(old(Now()), Send(p)) else old(Now())
      ensures ok ==> reached
      ensures clock > old(clock) && (!ok ==> Stopped(old(clock)))
    {
      ghost var now := clock;
      ok := !stop(clock);
      assert !ok ==> stop(now);
      reached := ok || delivered(clock);
      if ok || delivered(clock) {
        server := Store(server, p);
        sent := sent + [p];
      }
      clock := clock + 1;
    }

    /** The proposing stage of a tick. */
    method Propose(config: Config, state: State, s: Session, inputs: Inputs, claims: seq<Claim>,
                   records: seq<MemoryRecord>)
      returns (ok: bool, ghost k: nat)
      modifies this
      ensures var effects := ProposeEffects(config, state, s, inputs, claims, records);
        && k <= |effects| && Now() == After(old(Now()), effects[..k]) && (ok ==> k == |effects|)
      ensures ok ==> file.cursor == inputs.next && file.inFlight.None? && file.days == state.days
      ensures clock > old(clock) && (!ok ==> Stopped(old(clock)))
    {
      hide ProposeEffects, Do, After, KeysOf;
      ghost var w, effects := Now(), ProposeEffects(config, state, s, inputs, claims, records);
      var keys := KeysOf(config, s, records);
      var f := InFlight(s.id, s.identity, s.revision, inputs.next, Proposing, "", claims, keys, records);
      ProposeShape(config, state, s, inputs, claims, records);
      NoEffects(w, effects);
      k := 0;
      NextEffect(w, effects, 0);
      ghost var reached;
      ok, reached := WriteState(state.(inFlight := Some(f)));
      if reached { k := 1; }
      if !ok { return; }
      var i := 0;
      while i < |records|
        invariant i <= |records| && k == i + 1 && Now() == After(w, effects[..k]) && clock > old(clock)
      {
        NextEffect(w, effects, k);
        assert effects[i + 1] == Send(Proposals(f)[i]);
        ok, reached := SendProposal(Proposal(keys[i], SavedRecord(records[i])));
        if reached { k := k + 1; }
        if !ok { return; }
        i := i + 1;
      }
      NextEffect(w, effects, k);
      ok, reached := WriteState(State(inputs.next, None, state.days));
      if reached { k := k + 1; }
      if ok {
        assert effects[..|effects|] == effects;
        EndsWith(w, effects, State(inputs.next, None, state.days));
      }
    }

    /** tick: stopped anywhere, it has carried out a prefix of its effects; and nothing but that keeps it from
        carrying out all of them. */
    method Tick(config: Config, inputs: Inputs) returns (finished: bool, ghost k: nat)
      modifies this
      ensures var effects := Effects(config, old(file), inputs);
        && k <= |effects| && Now() == After(old(Now()), effects[..k]) && (finished ==> k == |effects|)
      ensures finished && MovesOn(config, old(file), inputs) ==> file.cursor == inputs.next && file.inFlight.None?
      ensures finished && MovesOn(config, old(file), inputs) ==>
        if CallsModel(config, old(file), inputs) then Spends(config, old(file.days), file.days, inputs)
        else file.days == old(file.days)
      ensures clock >= old(clock) && (!finished ==> Stopped(old(clock)))
    {
      var state := file;
      k := 0;
      if !Runnable(config, state) { return true, 0; }
      var ok := Fetch();
      if !ok || inputs.session.None? { return ok, 0; }
      var s := inputs.session.value;
      ok := Fetch();
      if !ok { return false, 0; }
      if inputs.triage.None? {
        ghost var reached;
        finished, reached := WriteState(State(inputs.next, None, state.days));
        ghost var effects := Effects(config, old(file), inputs);
        OneEffect(old(Now()), effects);
        k := if reached then 1 else 0;
        return;
      }
      match Resume(config, state.inFlight, s)
      case Throws => return true, 0;
      case Nothing => finished, k := Extract(config, state, s, inputs);
      case Resumed(f) =>
        ok := Fetch();
        if !ok { return false, 0; }
        finished, k := Propose(config, state, s, inputs, f.claims,
                               if f.stage.Proposing? then f.records else BuildRecords(f.claims, s, inputs));
    }

    /** tick with --dry-run, which starts from an empty state: nothing is persisted or sent, and the records it
        reports are those that a tick on an empty state would propose with the same answers. */
    method DryTick(config: Config, inputs: Inputs) returns (finished: bool, reported: Option<seq<MemoryRecord>>)
      modifies this`clock
      ensures Now() == old(Now()) && temporary == old(temporary)
      ensures !finished ==> Stopped(old(clock))
      ensures finished ==> (reported.Some? <==>
        && inputs.session.Some? && inputs.triage.Some? && !inputs.constrained
        && Reserve(config, map[], inputs.day).Some? && ValidClaims(config, inputs.model))
      ensures finished && reported.Some? ==>
        var empty := State(None, None, map[]);
        FreshEffects(config, empty, inputs.session.value, inputs)[3..]
          == ProposeEffects(config, DoneState(config, empty, inputs.session.value, inputs),
                            inputs.session.value, inputs, PaidClaims(config, inputs), reported.value)
    {
      hide FreshEffects, ProposeEffects, BuildRecords, PaidClaims, ValidClaims, PendingState, DoneState, Reserve;
      reported := None;
      finished := Fetch();
      if !finished || inputs.session.None? { return; }
      finished := Fetch();
      if !finished || inputs.triage.None? { return; }
      finished := Fetch();
      if !finished || inputs.constrained || Reserve(config, map[], inputs.day).None? { return; }
      finished := Fetch();
      if !finished || !ValidClaims(config, inputs.model) { return; }
      finished := Fetch();
      if !finished { return; }
      reported := Some(BuildRecords(PaidClaims(config, inputs), inputs.session.value, inputs));
      FreshShape(config, State(None, None, map[]), inputs.session.value, inputs);
    }

    /** A fresh extraction: plan usage, budget, model, then the proposing stage. */
    method Extract(config: Config, state: State, s: Session, inputs: Inputs) returns (finished: bool, ghost k: nat)
      requires inputs.triage.Some?
      modifies this
      ensures var effects := FreshEffects(config, state, s, inputs);
        && k <= |effects| && Now() == After(old(Now()), effects[..k]) && (finished ==> k == |effects|)
      ensures finished && !inputs.constrained && Reserve(config, state.days, inputs.day).Some?
              && ValidClaims(config, inputs.model) ==>
        && file.cursor == inputs.next && file.inFlight.None?
        && Spends(config, state.days, file.days, inputs)
      ensures clock >= old(clock) && (!finished ==> Stopped(old(clock)))
    {
      hide FreshEffects, ProposeEffects, BuildRecords, PaidClaims, ValidClaims, Do, After, PendingState, DoneState,
        Reserve, Settle, Spends, SharedClaims, Validated, Saved;
      ghost var effects, w := FreshEffects(config, state, s, inputs), old(Now());
      FreshShape(config, state, s, inputs);
      k := 0;
      NoEffects(w, effects);
      NextEffect(w, effects, 0);
      var ok;
      ghost var reached;
      ok, reached := WriteState(state);
      if reached { k := 1; }
      if !ok { return false, k; }
      if inputs.constrained || Reserve(config, state.days, inputs.day).None? { return true, 1; }
      NextEffect(w, effects, 1);
      var pending := InFlight(s.id, s.identity, s.revision, inputs.next, ModelPending, inputs.day, [], [], []);
      var days := Reserve(config, state.days, inputs.day).value;
      Entries(config, state, s, inputs);
      ok, reached := WriteState(State(state.cursor, Some(pending), days));
      if reached { k := 2; }
      if !ok { return false, k; }
      ok := Fetch();
      var validated := ValidateClaims(config, inputs.model);
      if !ok || validated.None? { return ok, 2; }
      var claims := SharedClaims(config, validated.value);
      Paid(config, inputs);
      days := Settle(config, days, inputs.day, inputs.usage);
      SettledSpends(config, state.days, inputs);
      var model := InFlight(s.id, s.identity, s.revision, inputs.next, ModelDone, "", claims, [], []);
      var done := State(state.cursor, Some(model), days);
      NextEffect(w, effects, 2);
      ok, reached := WriteState(done);
      if reached { k := 3; }
      if !ok { return false, k; }
      ok := Fetch();
      if !ok { return false, 3; }
      var records := BuildRecords(claims, s, inputs);
      ghost var j;
      ghost var tail := ProposeEffects(config, done, s, inputs, claims, records);
      finished, j := Propose(config, done, s, inputs, claims, records);
      AfterAppend(w, effects[..3], tail[..j]);
      assert effects[..3 + j] == effects[..3] + tail[..j];
      k := 3 + j;
    }
  }

  /** What is persisted around the model call. */
  lemma Entries(config: Config, state: State, s: Session, inputs: Inputs)
    requires Reserve(config, state.days, inputs.day).Some?
    ensures var days := Reserve(config, state.days, inputs.day).value;
      && PendingState(config, state, s, inputs)
           == State(state.cursor, Some(InFlight(s.id, s.identity, s.revision, inputs.next, ModelPending, inputs.day,
                                                [], [], [])), days)
      && DoneState(config, state, s, inputs)
           == State(state.cursor, Some(InFlight(s.id, s.identity, s.revision, inputs.next, ModelDone, "",
                                                PaidClaims(config, inputs), [], [])),
                    Settle(config, days, inputs.day, inputs.usage))
  {
  }

  lemma Paid(config: Config, inputs: Inputs)
    ensures PaidClaims(config, inputs) == SharedClaims(config, Validated(config, inputs.model))
  {
  }

  lemma ReservedDay(config: Config, days: map<string, Budget>, day: string)
    requires Reserve(config, days, day).Some?
    ensures var b := BudgetOf(days, day);
      && Reserve(config, days, day).value == days[day := Budget(Plus(b.reserved, config.call), b.used)]
      && AtMost(Plus(Plus(b.used, b.reserved), config.call), config.daily)
  {
    hide BudgetOf, Plus, AtMost;
  }

  lemma SettledDay(config: Config, days: map<string, Budget>, day: string, b: Budget, usage: Tokens)
    ensures Settle(config, days[day := Budget(Plus(b.reserved, config.call), b.used)], day, usage)
         == days[day := Budget(b.reserved, Plus(b.used, usage))]
  {
    var reserved := days[day := Budget(Plus(b.reserved, config.call), b.used)];
    assert BudgetOf(reserved, day) == reserved[day];
    var now := Budget(b.reserved, Plus(b.used, usage));
    assert Settle(config, reserved, day, usage) == reserved[day := now];
    assert reserved[day := now] == days[day := now];
  }

  lemma SettledSpends(config: Config, days: map<string, Budget>, inputs: Inputs)
    requires Reserve(config, days, inputs.day).Some?
    ensures Spends(config, days, Settle(config, Reserve(config, days, inputs.day).value, inputs.day, inputs.usage),
                   inputs)
  {
    var b := BudgetOf(days, inputs.day);
    hide *;
    ReservedDay(config, days, inputs.day);
    SettledDay(config, days, inputs.day, b, inputs.usage);
    var now := Settle(config, Reserve(config, days, inputs.day).value, inputs.day, inputs.usage);
    assert now[inputs.day] == Budget(b.reserved, Plus(b.used, inputs.usage));
    OthersKept(days, inputs.day, Budget(b.reserved, Plus(b.used, inputs.usage)));
    OneCallSpends(config, days, now, b, inputs);
  }

  lemma OneCallSpends(config: Config, days: map<string, Budget>, now: map<string, Budget>, b: Budget, inputs: Inputs)
    requires b == BudgetOf(days, inputs.day)
    requires AtMost(Plus(Plus(b.used, b.reserved), config.call), config.daily)
    requires inputs.day in now && now[inputs.day] == Budget(b.reserved, Plus(b.used, inputs.usage))
    requires now - {inputs.day} == days - {inputs.day}
    ensures Spends(config, days, now, inputs)
  {
    FitsMeans(b.used, b.reserved, config.call, config.daily);
    PlusMeans(b.used, inputs.usage);
    hide AtMost, Plus, BudgetOf;
  }

  lemma FitsMeans(a: Tokens, b: Tokens, c: Tokens, d: Tokens)
    requires AtMost(Plus(Plus(a, b), c), d)
    ensures a.input + b.input + c.input <= d.input && a.output + b.output + c.output <= d.output
  {
  }

  lemma PlusMeans(a: Tokens, b: Tokens)
    ensures Plus(a, b).input == a.input + b.input && Plus(a, b).output == a.output + b.output
  {
  }

  lemma OthersKept(days: map<string, Budget>, day: string, b: Budget)
    ensures days[day := b] - {day} == days - {day}
  {
  }

  lemma FreshShape(config: Config, state: State, s: Session, inputs: Inputs)
    requires inputs.triage.Some?
    ensures var effects := FreshEffects(config, state, s, inputs);
      && effects != [] && effects[0] == Persist(state)
      && if inputs.constrained || Reserve(config, state.days, inputs.day).None? then |effects| == 1
         else
           && |effects| >= 2 && effects[1] == Persist(PendingState(config, state, s, inputs))
           && if !ValidClaims(config, inputs.model) then |effects| == 2
              else
                var done, claims := DoneState(config, state, s, inputs), PaidClaims(config, inputs);
                && |effects| >= 3 && effects[2] == Persist(done)
                && effects[3..] == ProposeEffects(config, done, s, inputs, claims, BuildRecords(claims, s, inputs))
  {
    hide ProposeEffects, BuildRecords, PaidClaims, ValidClaims, PendingState, DoneState, Reserve;
  }

  lemma NoEffects(w: World, effects: seq<Effect>)
    ensures After(w, effects[..0]) == w
  {
  }

  lemma NextEffect(w: World, effects: seq<Effect>, k: nat)
    requires k < |effects|
    ensures After(w, effects[..k + 1]) == Do(After(w, effects[..k]), effects[k])
  {
    assert effects[..k + 1] == effects[..k] + [effects[k]];
    AfterNext(w, effects[..k], effects[k]);
  }

  lemma EndsWith(w: World, effects: seq<Effect>, state: State)
    requires effects != [] && effects[|effects| - 1] == Persist(state)
    ensures After(w, effects).file == Saved(state)
  {
  }

  lemma ProposeShape(config: Config, state: State, s: Session, inputs: Inputs, claims: seq<Claim>,
                     records: seq<MemoryRecord>)
    ensures var f := ProposingEntry(config, s, inputs.next, claims, records);
      var effects := ProposeEffects(config, state, s, inputs, claims, records);
      && |f.records| == |f.keys| && |effects| == |Proposals(f)| + 2
      && effects[0] == Persist(state.(inFlight := Some(f)))
      && effects[|effects| - 1] == Persist(State(inputs.next, None, state.days))
      && forall i | 0 <= i < |Proposals(f)| :: effects[i + 1] == Send(Proposals(f)[i])
  {
  }

  lemma OneEffect(w: World, effects: seq<Effect>)
    requires |effects| == 1
    ensures After(w, effects[..1]) == Do(w, effects[0]) && After(w, effects[..0]) == w
  {
    assert effects[..1] == [] + [effects[0]];
    AfterNext(w, [], effects[0]);
  }

  lemma {:induction false} AfterAppend(w: World, a: seq<Effect>, b: seq<Effect>)
    ensures After(w, a + b) == After(After(w, a), b)
  {
    if b == [] {
      assert a + b == a;
    } else {
      AfterAppend(w, a, b[..|b| - 1]);
      assert (a + b)[..|a + b| - 1] == a + b[..|b| - 1];
    }
  }
}
