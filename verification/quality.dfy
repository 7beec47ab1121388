/** The quality evaluation: the counters of one sample, and the gate that later checks them. */
module Quality {
  import opened Wrappers
  import opened Extractor

  /** One conversation of the sample, with everything outside decides about it: the triage, the plan usage, the
      model's candidates (None if the call failed) and the tokens it used, and which claims are known (None if
      the search failed). */
  datatype Sample = Sample(id: string, triage: Option<bool>, planAvailable: bool, candidates: Option<seq<Claim>>,
                           usage: Tokens, known: string -> Option<bool>)

  datatype Counts = Counts(requested: nat, scanned: nat, triageRejected: nat, modelAttempted: nat, modelSucceeded: nat,
                           modelFailed: nat, modelNoOp: nat, candidateClaims: nat, duplicateClaims: nat,
                           wouldProposeClaims: nat, invalidOrUnsafeClaims: nat)

  const NO_COUNTS := Counts(0, 0, 0, 0, 0, 0, 0, 0, 0, 0, 0)

  // ---- What the counters should say ----

  function Count(samples: seq<Sample>, p: Sample -> bool): nat {
    if samples == [] then 0
    else Count(samples[..|samples| - 1], p) + if p(samples[|samples| - 1]) then 1 else 0
  }

  function Sum(samples: seq<Sample>, f: Sample -> nat): nat {
    if samples == [] then 0 else Sum(samples[..|samples| - 1], f) + f(samples[|samples| - 1])
  }

  predicate Rejected(x: Sample) {
    x.triage == Some(false)
  }

  predicate Attempted(x: Sample) {
    x.triage == Some(true)
  }

  /** The model answered with claims that pass validation; anything else counts as a failure of the model. */
  predicate Succeeded(config: Config, x: Sample) {
    Attempted(x) && x.candidates.Some? && ValidClaims(config, x.candidates.value)
  }

  predicate Failed(config: Config, x: Sample) {
    Attempted(x) && !Succeeded(config, x)
  }

  predicate NoOp(config: Config, x: Sample) {
    Succeeded(config, x) && x.candidates.value == []
  }

  function Candidates(config: Config, x: Sample): nat {
    if Succeeded(config, x) then |x.candidates.value| else 0
  }

  /** The claims as validateClaims returns them. */
  function Claims(config: Config, x: Sample): seq<Claim>
    requires Succeeded(config, x)
  {
    Validated(config, x.candidates.value)
  }

  /** How many of the claims the search knows, or does not know. */
  function Matching(claims: seq<Claim>, known: string -> Option<bool>, verdict: bool): nat {
    if claims == [] then 0
    else
      Matching(claims[..|claims| - 1], known, verdict)
      + if known(claims[|claims| - 1].text) == Some(verdict) then 1 else 0
  }

  function Duplicates(config: Config, x: Sample): nat {
    if Succeeded(config, x) then Matching(SharedClaims(config, Claims(config, x)), x.known, true) else 0
  }

  function Proposable(config: Config, x: Sample): nat {
    if Succeeded(config, x) then Matching(SharedClaims(config, Claims(config, x)), x.known, false) else 0
  }

  function Unsafe(config: Config, x: Sample): nat {
    if Succeeded(config, x) then Matching(Claims(config, x), text => Some(config.shared(text)), false) else 0
  }

  /** What the report of a sample says, counter by counter. */
  function Report(config: Config, samples: seq<Sample>): Counts {
    Counts(|samples|, |samples|, Count(samples, Rejected), Count(samples, Attempted),
           Count(samples, x => Succeeded(config, x)),
           Count(samples, x => Failed(config, x)), Count(samples, x => NoOp(config, x)),
           Sum(samples, x => Candidates(config, x)),
           Sum(samples, x => Duplicates(config, x)), Sum(samples, x => Proposable(config, x)),
           Sum(samples, x => Unsafe(config, x)))
  }

  /** Nothing outside keeps the evaluation from getting past this conversation. */
  predicate Evaluable(config: Config, x: Sample) {
    && x.triage.Some?
    && (x.triage.value ==> x.planAvailable)
    && (Succeeded(config, x) ==> forall c | c in SharedClaims(config, Claims(config, x)) :: x.known(c.text).Some?)
  }

  /** The tokens the evaluation may count on: of the calls that succeeded what they used, and of each that failed
      all that was reserved, for the evaluation never gives that back. */
  function Committed(config: Config, samples: seq<Sample>): Budget {
    if samples == [] then Budget(NONE, NONE)
    else
      var b, x := Committed(config, samples[..|samples| - 1]), samples[|samples| - 1];
      if Succeeded(config, x) then Budget(b.reserved, Plus(b.used, x.usage))
      else if Failed(config, x) then Budget(Plus(b.reserved, config.call), b.used)
      else b
  }

  /** There are tokens left for every model call of the sample. */
  predicate Affordable(config: Config, samples: seq<Sample>) {
    forall i | 0 <= i < |samples| && Attempted(samples[i]) :: Affords(config, Committed(config, samples[..i]))
  }

  predicate Affords(config: Config, b: Budget) {
    AtMost(Plus(Plus(b.used, b.reserved), config.call), config.daily)
  }

  /** The ids are not empty and not repeated. */
  predicate ProperIds(samples: seq<Sample>) {
    && (forall i | 0 <= i < |samples| :: samples[i].id != "")
    && (forall i, j | 0 <= i < j < |samples| :: samples[i].id != samples[j].id)
  }

  // ---- splitQualityCandidates ----

  /** The claims kept are the shared ones, and the others are counted. */
  lemma {:induction false} SplitCounts(config: Config, candidates: seq<Claim>)
    ensures var kept := SharedClaims(config, candidates);
      && |kept| + Matching(candidates, text => Some(config.shared(text)), false) == |candidates|
      && (forall c | c in kept :: c in candidates && config.shared(c.text))
  {
    if candidates != [] {
      var front, last := candidates[..|candidates| - 1], candidates[|candidates| - 1];
      SplitCounts(config, front);
      assert candidates == front + [last];
      SharedAppend(config, front, [last]);
      assert [last][1..] == [];
    }
  }

  lemma {:induction false} SharedAppend(config: Config, a: seq<Claim>, b: seq<Claim>)
    ensures SharedClaims(config, a + b) == SharedClaims(config, a) + SharedClaims(config, b)
  {
    if a == [] {
      assert a + b == b;
    } else {
      assert (a + b)[1..] == a[1..] + b;
      SharedAppend(config, a[1..], b);
    }
  }

  lemma {:induction false} MatchingSplits(claims: seq<Claim>, known: string -> Option<bool>)
    requires forall c | c in claims :: known(c.text).Some?
    ensures Matching(claims, known, true) + Matching(claims, known, false) == |claims|
  {
    if claims != [] {
      var front, last := claims[..|claims| - 1], claims[|claims| - 1];
      assert claims == front + [last] && last in claims;
      MatchingSplits(front, known);
      if known(last.text).value {
        assert known(last.text) == Some(true);
      } else {
        assert known(last.text) == Some(false);
      }
    }
  }

  function One(b: bool): nat {
    if b then 1 else 0
  }

  /** What one conversation adds to the report. */
  lemma ReportStep(config: Config, samples: seq<Sample>, k: nat)
    requires k < |samples|
    ensures var c, d, x := Report(config, samples[..k]), Report(config, samples[..k + 1]), samples[k];
      d == Counts(c.requested + 1, c.scanned + 1, c.triageRejected + One(Rejected(x)),
                  c.modelAttempted + One(Attempted(x)),
                  c.modelSucceeded + One(Succeeded(config, x)), c.modelFailed + One(Failed(config, x)),
                  c.modelNoOp + One(NoOp(config, x)),
                  c.candidateClaims + Candidates(config, x), c.duplicateClaims + Duplicates(config, x),
                  c.wouldProposeClaims + Proposable(config, x), c.invalidOrUnsafeClaims + Unsafe(config, x))
    ensures k + 1 == |samples| ==> samples[..k + 1] == samples
  {
    hide Rejected, Attempted, Succeeded, Failed, NoOp, Candidates, Duplicates, Proposable, Unsafe;
    assert samples[..k + 1][..k] == samples[..k];
  }

  lemma NoOpAddsNothing(config: Config, x: Sample)
    requires NoOp(config, x)
    ensures Duplicates(config, x) == 0 && Proposable(config, x) == 0 && Unsafe(config, x) == 0
  {
  }

  lemma Requested(config: Config, samples: seq<Sample>)
    ensures Report(config, samples).requested == |samples| && Report(config, samples).scanned == |samples|
  {
  }

  lemma NothingCommitted(config: Config, day: string)
    ensures BudgetOf(map[], day) == Committed(config, [])
  {
  }

  /** splitQualityCandidates counts as unsafe what it does not keep. */
  lemma UnsafeCount(config: Config, x: Sample)
    requires Succeeded(config, x)
    ensures Unsafe(config, x) == |Claims(config, x)| - |SharedClaims(config, Claims(config, x))|
    ensures |Claims(config, x)| == |x.candidates.value|
  {
    hide Validated;
    SplitCounts(config, Claims(config, x));
  }

  lemma NothingReported(config: Config)
    ensures Report(config, []) == NO_COUNTS
  {
  }

  // ---- The evaluation ----

  /** The sample is the page, up to the configured size. */
  function Sampled(page: seq<Sample>, sampleMax: nat): (sample: seq<Sample>)
    ensures sample <= page && (sample == page || |sample| == sampleMax) && |sample| <= sampleMax
  {
    if |page| < sampleMax then page else page[..sampleMax]
  }

  /** One day of the budget that the evaluation keeps for itself. */
  lemma ReserveToday(config: Config, days: map<string, Budget>, day: string, usage: Tokens)
    ensures var b := BudgetOf(days, day);
      && (Reserve(config, days, day).Some? <==> Affords(config, b))
      && (Reserve(config, days, day).Some? ==>
            var reserved := Reserve(config, days, day).value;
            && BudgetOf(reserved, day) == Budget(Plus(b.reserved, config.call), b.used)
            && BudgetOf(Settle(config, reserved, day, usage), day) == Budget(b.reserved, Plus(b.used, usage)))
  {
  }

  lemma CommittedStep(config: Config, samples: seq<Sample>, k: nat)
    requires k < |samples|
    ensures var b, x := Committed(config, samples[..k]), samples[k];
      Committed(config, samples[..k + 1]) ==
        if Succeeded(config, x) then Budget(b.reserved, Plus(b.used, x.usage))
        else if Failed(config, x) then Budget(Plus(b.reserved, config.call), b.used)
        else b
  {
    hide Succeeded, Failed;
    assert samples[..k + 1][..k] == samples[..k];
  }

  /** evaluateConversationMemoryQuality: it counts exactly the sample and reports, or stops; it stops only where the
      configuration, the policy or the sample say so, and never because the report refuses the counters. */
  method Evaluate(config: Config, v3: bool, sampleMax: nat, policy: Policy, key: QualityKey, release: string,
                  configDigest: string, now: int, day: string, page: seq<Sample>)
    returns (report: Option<QualityReport>)
    requires sampleMax <= 20
    ensures report.Some? <==>
      && v3 && ValidPolicy(policy) && policy.maxClaims == config.maxClaims && ProperIds(Sampled(page, sampleMax))
      && (forall x | x in Sampled(page, sampleMax) :: Evaluable(config, x))
      && Affordable(config, Sampled(page, sampleMax))
    ensures report.Some? ==> report == CreateReport(policy, key, release, configDigest, now,
                                                    Report(config, Sampled(page, sampleMax)))
    ensures report.Some? ==> Honest(report.value.body)
  {
    hide Report, SharedClaims, ValidClaims, Validated, Claims, Matching, Committed, Affords, Reserve, Settle, BudgetOf,
      CreateReport, ValidPolicy, GateAccepts, Sampled, Plus, AtMost, Honest;
    if !v3 || policy.maxClaims != config.maxClaims { return None; }
    NothingReported(config);
    NothingCommitted(config, day);
    var sessions := Sampled(page, sampleMax);
    var c := NO_COUNTS.(requested := |sessions|);
    var ids: set<string> := {};
    var days: map<string, Budget> := map[];
    assert sessions[..0] == [];
    for k := 0 to |sessions|
      invariant c == Report(config, sessions[..k]).(requested := |sessions|)
      invariant BudgetOf(days, day) == Committed(config, sessions[..k])
      invariant forall i | 0 <= i < k :: Evaluable(config, sessions[i]) && sessions[i].id != ""
      invariant forall i | 0 <= i < k && Attempted(sessions[i]) :: Affords(config, Committed(config, sessions[..i]))
      invariant forall id :: id in ids <==> exists i :: 0 <= i < k && sessions[i].id == id
      invariant forall i, j | 0 <= i < j < k :: sessions[i].id != sessions[j].id
    {
      var x := sessions[k];
      ReportStep(config, sessions, k);
      CommittedStep(config, sessions, k);
      assert x in sessions;
      if x.id == "" || x.id in ids { return None; }
      ids := ids + {x.id};
      c := c.(scanned := c.scanned + 1);
      if x.triage.None? { return None; }
      if !x.triage.value {
        c := c.(triageRejected := c.triageRejected + 1);
        continue;
      }
      if !x.planAvailable { return None; }
      ReserveToday(config, days, day, x.usage);
      var reservation := Reserve(config, days, day);
      if reservation.None? { return None; }
      days := reservation.value;
      c := c.(modelAttempted := c.modelAttempted + 1);
      if x.candidates.None? || !ValidClaims(config, x.candidates.value) {
        c := c.(modelFailed := c.modelFailed + 1);
        continue;
      }
      days := Settle(config, days, day, x.usage);
      var claims := SharedClaims(config, Claims(config, x));
      var unsafe := Unsafe(config, x);
      UnsafeCount(config, x);
      c := c.(modelSucceeded := c.modelSucceeded + 1, candidateClaims := c.candidateClaims + (|claims| + unsafe),
              invalidOrUnsafeClaims := c.invalidOrUnsafeClaims + unsafe);
      if |claims| + unsafe == 0 {
        NoOpAddsNothing(config, x);
        c := c.(modelNoOp := c.modelNoOp + 1);
        continue;
      }
      var ok, duplicates, proposable := SearchClaims(claims, x.known);
      if !ok { return None; }
      c := c.(duplicateClaims := c.duplicateClaims + duplicates,
              wouldProposeClaims := c.wouldProposeClaims + proposable);
    }
    assert sessions[..|sessions|] == sessions;
    Requested(config, sessions);
    ReportPassesGate(config, sessions);
    CreateIff(policy, key, release, configDigest, now, c);
    CreatedIsHonest(policy, key, release, configDigest, now, c);
    report := CreateReport(policy, key, release, configDigest, now, c);
  }

  /** The search for each claim of one conversation. */
  method SearchClaims(claims: seq<Claim>, known: string -> Option<bool>)
    returns (ok: bool, duplicates: nat, proposable: nat)
    ensures ok <==> forall c | c in claims :: known(c.text).Some?
    ensures ok ==> duplicates == Matching(claims, known, true) && proposable == Matching(claims, known, false)
  {
    duplicates, proposable := 0, 0;
    for k := 0 to |claims|
      invariant duplicates == Matching(claims[..k], known, true) && proposable == Matching(claims[..k], known, false)
      invariant forall i | 0 <= i < k :: known(claims[i].text).Some?
    {
      assert claims[..k + 1][..k] == claims[..k];
      if known(claims[k].text).None? { return false, 0, 0; }
      if known(claims[k].text).value { duplicates := duplicates + 1; } else { proposable := proposable + 1; }
    }
    assert claims[..|claims|] == claims;
    ok := true;
  }

  // ---- The gate ----

  /** What the gate requires of the counters of a report. */
  predicate GateAccepts(c: Counts, maxClaims: nat) {
    && c.requested <= 20 && c.scanned == c.requested
    && c.scanned == c.triageRejected + c.modelAttempted
    && c.modelAttempted == c.modelSucceeded + c.modelFailed
    && c.modelNoOp <= c.modelSucceeded
    && c.duplicateClaims + c.wouldProposeClaims + c.invalidOrUnsafeClaims == c.candidateClaims
    && var active := c.modelSucceeded - c.modelNoOp;
       if c.candidateClaims == 0 then active == 0
       else 1 <= active <= c.candidateClaims <= active * maxClaims
  }

  lemma CandidatesAddUp(config: Config, x: Sample)
    requires Evaluable(config, x)
    ensures Duplicates(config, x) + Proposable(config, x) + Unsafe(config, x) == Candidates(config, x)
    ensures One(Rejected(x)) + One(Attempted(x)) == 1
    ensures One(Succeeded(config, x)) + One(Failed(config, x)) == One(Attempted(x))
    ensures var active := One(Succeeded(config, x)) - One(NoOp(config, x));
      && 0 <= active <= 1 && active <= Candidates(config, x)
      && Candidates(config, x) <= if active == 1 then config.maxClaims else 0
  {
    if Succeeded(config, x) {
      UnsafeCount(config, x);
      MatchingSplits(SharedClaims(config, Claims(config, x)), x.known);
    }
  }

  lemma {:induction false} ReportBalances(config: Config, samples: seq<Sample>)
    requires forall x | x in samples :: Evaluable(config, x)
    ensures var c := Report(config, samples);
      && c.scanned == c.triageRejected + c.modelAttempted
      && c.modelAttempted == c.modelSucceeded + c.modelFailed
      && c.modelNoOp <= c.modelSucceeded
      && c.duplicateClaims + c.wouldProposeClaims + c.invalidOrUnsafeClaims == c.candidateClaims
      && c.modelSucceeded - c.modelNoOp <= c.candidateClaims
  {
    if samples != [] {
      var front, x := samples[..|samples| - 1], samples[|samples| - 1];
      assert samples == front + [x] && x in samples && Evaluable(config, x);
      ReportBalances(config, front);
      ReportStep(config, samples, |front|);
      CandidatesAddUp(config, x);
    }
  }

  /** As many claims as that many answers can hold. */
  function Most(answers: int, maxClaims: nat): int {
    answers * maxClaims
  }

  lemma OneMore(candidates: nat, n: int, d: int, x: nat, m: nat)
    requires candidates <= Most(n, m) && 0 <= d <= 1 && x <= if d == 1 then m else 0
    ensures candidates + x <= Most(n + d, m)
  {
  }

  predicate Bounded(config: Config, samples: seq<Sample>) {
    var c := Report(config, samples);
    c.candidateClaims <= Most(c.modelSucceeded - c.modelNoOp, config.maxClaims)
  }

  lemma OneMoreSample(config: Config, samples: seq<Sample>, k: nat)
    requires k < |samples| && Bounded(config, samples[..k]) && Evaluable(config, samples[k])
    ensures Bounded(config, samples[..k + 1])
  {
    hide Report, Evaluable, Rejected, Attempted, Succeeded, Failed, NoOp, Candidates, Duplicates, Proposable, Unsafe,
      One, Most;
    var c, x := Report(config, samples[..k]), samples[k];
    ReportStep(config, samples, k);
    CandidatesAddUp(config, x);
    OneMore(c.candidateClaims, c.modelSucceeded - c.modelNoOp, One(Succeeded(config, x)) - One(NoOp(config, x)),
            Candidates(config, x), config.maxClaims);
  }

  lemma {:induction false} CandidatesBounded(config: Config, samples: seq<Sample>, n: nat)
    requires n <= |samples| && forall x | x in samples :: Evaluable(config, x)
    ensures Bounded(config, samples[..n])
  {
    if n == 0 {
      NothingReported(config);
      assert Most(0, config.maxClaims) == 0;
    } else {
      hide Bounded, Evaluable;
      CandidatesBounded(config, samples, n - 1);
      OneMoreSample(config, samples, n - 1);
    }
  }

  /** Every report the evaluation can produce, within the bound on the sample, passes the gate's check of the
      counters. */
  lemma ReportPassesGate(config: Config, samples: seq<Sample>)
    requires |samples| <= 20 && forall x | x in samples :: Evaluable(config, x)
    ensures GateAccepts(Report(config, samples), config.maxClaims)
  {
    ReportBalances(config, samples);
    CandidatesBounded(config, samples, |samples|);
    assert samples[..|samples|] == samples;
    Requested(config, samples);
    hide Report;
    BalancedPasses(Report(config, samples), config.maxClaims);
  }

  lemma BalancedPasses(c: Counts, maxClaims: nat)
    requires c.requested <= 20 && c.scanned == c.requested && c.scanned == c.triageRejected + c.modelAttempted
    requires c.modelAttempted == c.modelSucceeded + c.modelFailed && c.modelNoOp <= c.modelSucceeded
    requires c.duplicateClaims + c.wouldProposeClaims + c.invalidOrUnsafeClaims == c.candidateClaims
    requires c.modelSucceeded - c.modelNoOp <= c.candidateClaims
    requires c.candidateClaims <= Most(c.modelSucceeded - c.modelNoOp, maxClaims)
    ensures GateAccepts(c, maxClaims)
  {
    var active := c.modelSucceeded - c.modelNoOp;
    assert active == 0 ==> active * maxClaims == 0;
  }

  // ---- The report and its gate ----

  datatype Policy = Policy(maxClaims: nat, minRequested: nat, minScanned: nat, minSucceeded: nat, minPromotion: nat,
                           minRejected: nat, maxRejected: nat, maxDuplicate: nat, maxNoOp: nat, maxFailure: nat,
                           maxUnsafe: nat)

  datatype QualityKey = QualityKey(id: string, secret: string)

  datatype Rates = Rates(promotion: nat, rejected: nat, duplicate: nat, noOp: nat, failure: nat, unsafe: nat)

  datatype Reason = Requested | Scanned | ModelSucceeded | Promotion | TriageRejected | Duplicate | NoOps
                  | ModelFailure | InvalidOrUnsafe

  /** Digests and signatures stand for what they are made from. */
  datatype Payload = Payload(policy: Policy, release: string, config: string, completedAt: int, sample: Counts,
                             rates: Rates, pass: bool, reasons: seq<Reason>, keyId: string)

  datatype Signature = Signature(secret: string, payload: Payload)

  datatype QualityReport = QualityReport(body: Payload, digest: Payload, signature: Signature)

  predicate ValidPolicy(p: Policy) {
    && 1 <= p.maxClaims <= 3
    && 1 <= p.minRequested <= 20 && 1 <= p.minScanned <= p.minRequested && 1 <= p.minSucceeded <= p.minScanned
    && p.minRejected <= p.maxRejected
    && p.minPromotion <= 10000 && p.maxRejected <= 10000 && p.maxDuplicate <= 10000 && p.maxNoOp <= 10000
    && p.maxFailure <= 10000 && p.maxUnsafe <= 10000
  }

  /** Parts of ten thousand, rounded down. */
  function Bps(numerator: nat, denominator: nat): nat {
    if denominator == 0 then 0 else numerator * 10000 / denominator
  }

  function DeriveRates(c: Counts): Rates {
    Rates(Bps(c.wouldProposeClaims, c.candidateClaims), Bps(c.triageRejected, c.scanned),
          Bps(c.duplicateClaims, c.candidateClaims), Bps(c.modelNoOp, c.modelSucceeded),
          Bps(c.modelFailed, c.modelAttempted), Bps(c.invalidOrUnsafeClaims, c.candidateClaims))
  }

  function If(b: bool, reason: Reason): seq<Reason> {
    if b then [reason] else []
  }

  function Assess(c: Counts, r: Rates, p: Policy): seq<Reason> {
    If(c.requested < p.minRequested, Reason.Requested) + If(c.scanned < p.minScanned, Scanned)
    + If(c.modelSucceeded < p.minSucceeded, ModelSucceeded) + If(r.promotion < p.minPromotion, Promotion)
    + If(r.rejected < p.minRejected || r.rejected > p.maxRejected, TriageRejected)
    + If(r.duplicate > p.maxDuplicate, Duplicate) + If(r.noOp > p.maxNoOp, NoOps)
    + If(r.failure > p.maxFailure, ModelFailure) + If(r.unsafe > p.maxUnsafe, InvalidOrUnsafe)
  }

  /** r is the share of n in d, in parts of ten thousand and rounded down; of nothing there is no share. */
  predicate Share(r: nat, n: nat, d: nat) {
    if d == 0 then r == 0 else r * d <= 10000 * n < (r + 1) * d
  }

  /** The rates are the shares their names say: of the candidates, of the conversations scanned, and of the model
      calls that succeeded or were attempted. */
  predicate TrueRates(c: Counts, r: Rates) {
    && Share(r.promotion, c.wouldProposeClaims, c.candidateClaims)
    && Share(r.duplicate, c.duplicateClaims, c.candidateClaims)
    && Share(r.unsafe, c.invalidOrUnsafeClaims, c.candidateClaims)
    && Share(r.rejected, c.triageRejected, c.scanned)
    && Share(r.noOp, c.modelNoOp, c.modelSucceeded)
    && Share(r.failure, c.modelFailed, c.modelAttempted)
  }

  lemma RatesAreTrue(c: Counts)
    ensures TrueRates(c, DeriveRates(c))
  {
  }

  /** At least t parts of ten thousand in d are n, without rounding. */
  predicate Reaches(n: nat, d: nat, t: nat) {
    if d == 0 then t == 0 else 10000 * n >= t * d
  }

  /** Less than t + 1 parts. */
  predicate Stays(n: nat, d: nat, t: nat) {
    d == 0 || 10000 * n < (t + 1) * d
  }

  lemma ShareReaches(r: nat, n: nat, d: nat, t: nat)
    requires Share(r, n, d)
    ensures r >= t <==> Reaches(n, d, t)
    ensures r <= t <==> Stays(n, d, t)
  {
    if d > 0 {
      if r >= t { Grows(t, r, d); } else { Grows(r + 1, t, d); }
      if r <= t { Grows(r + 1, t + 1, d); } else { Grows(t + 1, r, d); }
    }
  }

  lemma Grows(a: nat, b: nat, d: nat)
    requires a <= b
    ensures a * d <= b * d
  {
  }

  /** The sample misses the threshold that this reason names. */
  predicate Misses(c: Counts, p: Policy, reason: Reason) {
    match reason
    case Requested => c.requested < p.minRequested
    case Scanned => c.scanned < p.minScanned
    case ModelSucceeded => c.modelSucceeded < p.minSucceeded
    case Promotion => !Reaches(c.wouldProposeClaims, c.candidateClaims, p.minPromotion)
    case TriageRejected =>
      !Reaches(c.triageRejected, c.scanned, p.minRejected) || !Stays(c.triageRejected, c.scanned, p.maxRejected)
    case Duplicate => !Stays(c.duplicateClaims, c.candidateClaims, p.maxDuplicate)
    case NoOps => !Stays(c.modelNoOp, c.modelSucceeded, p.maxNoOp)
    case ModelFailure => !Stays(c.modelFailed, c.modelAttempted, p.maxFailure)
    case InvalidOrUnsafe => !Stays(c.invalidOrUnsafeClaims, c.candidateClaims, p.maxUnsafe)
  }

  /** The sample meets every threshold of the policy. */
  ghost predicate Meets(c: Counts, p: Policy) {
    forall reason :: !Misses(c, p, reason)
  }

  /** createConversationMemoryQualityReport, which throws on a policy or on counters it does not accept. */
  function CreateReport(policy: Policy, key: QualityKey, release: string, config: string, completedAt: int,
                        sample: Counts): Option<QualityReport>
  {
    if !ValidPolicy(policy) || !GateAccepts(sample, policy.maxClaims) then None
    else
      var rates := DeriveRates(sample);
      var reasons := Assess(sample, rates, policy);
      var body := Payload(policy, release, config, completedAt, sample, rates, reasons == [], reasons, key.id);
      Some(QualityReport(body, body, Signature(key.secret, body)))
  }

  lemma CreateIff(policy: Policy, key: QualityKey, release: string, config: string, completedAt: int, sample: Counts)
    ensures CreateReport(policy, key, release, config, completedAt, sample).Some? <==>
      ValidPolicy(policy) && GateAccepts(sample, policy.maxClaims)
  {
  }

  /** Under a policy of any of these kinds no report is created, and none passes. */
  lemma PolicyRefused(report: QualityReport, policy: Policy, key: QualityKey, release: string, config: string, now: int,
                      maxAge: nat, sample: Counts)
    requires
      || policy.maxClaims == 0 || policy.maxClaims > 3 || policy.minRequested == 0 || policy.minRequested > 20
      || policy.minScanned == 0 || policy.minScanned > policy.minRequested
      || policy.minSucceeded == 0 || policy.minSucceeded > policy.minScanned
      || policy.minRejected > policy.maxRejected || policy.maxRejected > 10000 || policy.minPromotion > 10000
      || policy.maxDuplicate > 10000 || policy.maxNoOp > 10000 || policy.maxFailure > 10000 || policy.maxUnsafe > 10000
    ensures CreateReport(policy, key, release, config, now, sample).None?
    ensures Verify(report, policy, key, release, config, now, maxAge) == Invalid
  {
    hide GateAccepts, DeriveRates, Assess;
  }

  datatype Verdict = Pass | Invalid | DigestMismatch | SignatureInvalid | PolicyMismatch | ReleaseMismatch
                   | ConfigMismatch | CountsInvalid | RatesInvalid | AssessmentInvalid | NotPass | Future | Stale

  /** verifyConversationMemoryQualityGate, on a report of the declared shape. */
  function Verify(report: QualityReport, policy: Policy, key: QualityKey, release: string, config: string, now: int,
                  maxAge: nat): Verdict
  {
    var b := report.body;
    if !ValidPolicy(policy) || b.keyId != key.id then Invalid
    else if report.digest != b then DigestMismatch
    else if report.signature != Signature(key.secret, b) then SignatureInvalid
    else if b.policy != policy then PolicyMismatch
    else if b.release != release then ReleaseMismatch
    else if b.config != config then ConfigMismatch
    else if !GateAccepts(b.sample, policy.maxClaims) then CountsInvalid
    else if b.rates != DeriveRates(b.sample) then RatesInvalid
    else
      var reasons := Assess(b.sample, b.rates, policy);
      if b.pass != (reasons == []) || b.reasons != reasons then AssessmentInvalid
      else if !b.pass then NotPass
      else if now < b.completedAt then Future
      else if now - b.completedAt > maxAge then Stale
      else Pass
  }

  /** The reasons given are exactly the thresholds missed. */
  lemma AssessIff(c: Counts, p: Policy)
    ensures forall reason :: reason in Assess(c, DeriveRates(c), p) <==> Misses(c, p, reason)
    ensures Assess(c, DeriveRates(c), p) == [] <==> Meets(c, p)
  {
    var r := DeriveRates(c);
    RatesAreTrue(c);
    ShareReaches(r.promotion, c.wouldProposeClaims, c.candidateClaims, p.minPromotion);
    ShareReaches(r.rejected, c.triageRejected, c.scanned, p.minRejected);
    ShareReaches(r.rejected, c.triageRejected, c.scanned, p.maxRejected);
    ShareReaches(r.duplicate, c.duplicateClaims, c.candidateClaims, p.maxDuplicate);
    ShareReaches(r.noOp, c.modelNoOp, c.modelSucceeded, p.maxNoOp);
    ShareReaches(r.failure, c.modelFailed, c.modelAttempted, p.maxFailure);
    ShareReaches(r.unsafe, c.invalidOrUnsafeClaims, c.candidateClaims, p.maxUnsafe);
    hide DeriveRates, Reaches, Stays, Share;
    var reasons := Assess(c, r, p);
    forall reason ensures reason in reasons <==> Misses(c, p, reason) { AssessHas(c, r, p, reason); }
    if reasons != [] { assert reasons[0] in reasons; }
  }

  lemma AssessHas(c: Counts, r: Rates, p: Policy, reason: Reason)
    ensures reason in Assess(c, r, p) <==>
      match reason
      case Requested => c.requested < p.minRequested
      case Scanned => c.scanned < p.minScanned
      case ModelSucceeded => c.modelSucceeded < p.minSucceeded
      case Promotion => r.promotion < p.minPromotion
      case TriageRejected => r.rejected < p.minRejected || r.rejected > p.maxRejected
      case Duplicate => r.duplicate > p.maxDuplicate
      case NoOps => r.noOp > p.maxNoOp
      case ModelFailure => r.failure > p.maxFailure
      case InvalidOrUnsafe => r.unsafe > p.maxUnsafe
  {
    assert forall b, x :: reason in If(b, x) <==> b && reason == x;
    hide If;
  }

  /** What a created report says: true rates, and as reasons exactly the thresholds that the counters miss. */
  ghost predicate Honest(b: Payload) {
    && TrueRates(b.sample, b.rates) && (b.pass <==> Meets(b.sample, b.policy))
    && forall reason :: reason in b.reasons <==> Misses(b.sample, b.policy, reason)
  }

  lemma CreatedIsHonest(policy: Policy, key: QualityKey, release: string, config: string, completedAt: int,
                        sample: Counts)
    ensures var report := CreateReport(policy, key, release, config, completedAt, sample);
      report.Some? ==>
        && Honest(report.value.body) && report.value.body.sample == sample && report.value.body.policy == policy
        && report.value.body.completedAt == completedAt
  {
    RatesAreTrue(sample);
    AssessIff(sample, policy);
    hide DeriveRates, Assess, Meets, Misses, TrueRates, GateAccepts, ValidPolicy;
  }

  /** The gate passes exactly the reports that are created from the same policy, key and digests, on counters that
      meet the policy, and that are neither from the future nor too old. */
  lemma GateIff(report: QualityReport, policy: Policy, key: QualityKey, release: string, config: string, now: int,
                maxAge: nat)
    ensures Verify(report, policy, key, release, config, now, maxAge).Pass? <==>
      var at, sample := report.body.completedAt, report.body.sample;
      && CreateReport(policy, key, release, config, at, sample) == Some(report)
      && Meets(sample, policy) && at <= now <= at + maxAge
  {
    AssessIff(report.body.sample, policy);
    hide DeriveRates, Assess, Meets, Misses, GateAccepts, ValidPolicy;
  }

  /** At an input: one conversation with one new claim passes the strictest policy, and one with one known claim
      fails it, for the promotion and for the duplicate alone. */
  lemma NewClaimPasses(key: QualityKey, release: string, config: string, now: int)
    ensures var policy := Policy(1, 1, 1, 1, 10000, 0, 0, 0, 0, 0, 0);
      var novel, known := Counts(1, 1, 0, 1, 1, 0, 0, 1, 0, 1, 0), Counts(1, 1, 0, 1, 1, 0, 0, 1, 1, 0, 0);
      && (var r := CreateReport(policy, key, release, config, now, novel);
          r.Some? && Verify(r.value, policy, key, release, config, now, 0) == Pass)
      && (var r := CreateReport(policy, key, release, config, now, known);
          r.Some? && forall reason :: reason in r.value.body.reasons <==> reason in {Promotion, Duplicate})
  {
    var policy := Policy(1, 1, 1, 1, 10000, 0, 0, 0, 0, 0, 0);
    var novel, known := Counts(1, 1, 0, 1, 1, 0, 0, 1, 0, 1, 0), Counts(1, 1, 0, 1, 1, 0, 0, 1, 1, 0, 0);
    assert ValidPolicy(policy) && GateAccepts(novel, 1) && GateAccepts(known, 1);
    assert forall reason :: Misses(known, policy, reason) <==> reason in {Promotion, Duplicate};
    assert Meets(novel, policy);
    CreatedIsHonest(policy, key, release, config, now, novel);
    CreatedIsHonest(policy, key, release, config, now, known);
    CreateIff(policy, key, release, config, now, novel);
    CreateIff(policy, key, release, config, now, known);
    hide *;
    var r := CreateReport(policy, key, release, config, now, novel);
    GateIff(r.value, policy, key, release, config, now, 0);
  }

  /** Counters that the gate accepts and that meet the policy, in one list of inequalities. */
  predicate Passable(c: Counts, p: Policy) {
    && p.minRequested <= c.requested <= 20 && p.minScanned <= c.requested == c.scanned
    && c.scanned == c.triageRejected + c.modelSucceeded + c.modelFailed && p.minSucceeded <= c.modelSucceeded
    && c.modelNoOp <= c.modelSucceeded
    && c.candidateClaims == c.duplicateClaims + c.wouldProposeClaims + c.invalidOrUnsafeClaims
    && c.modelSucceeded - c.modelNoOp <= c.candidateClaims <= (c.modelSucceeded - c.modelNoOp) * p.maxClaims
    && p.minPromotion * c.candidateClaims <= 10000 * c.wouldProposeClaims
    && p.minRejected * c.scanned <= 10000 * c.triageRejected < (p.maxRejected + 1) * c.scanned
    && 10000 * c.duplicateClaims <= (p.maxDuplicate + 1) * c.candidateClaims
    && 10000 * c.modelNoOp < (p.maxNoOp + 1) * c.modelSucceeded
    && 10000 * c.modelFailed < (p.maxFailure + 1) * (c.modelSucceeded + c.modelFailed)
    && 10000 * c.invalidOrUnsafeClaims <= (p.maxUnsafe + 1) * c.candidateClaims
  }

  lemma ReachesMeans(n: nat, d: nat, t: nat)
    requires Reaches(n, d, t)
    ensures t * d <= 10000 * n
  {
  }

  lemma StaysMeans(n: nat, d: nat, t: nat)
    requires Stays(n, d, t) && n <= d
    ensures 10000 * n <= (t + 1) * d && (d > 0 ==> 10000 * n < (t + 1) * d)
  {
  }

  lemma MeetsMeans(c: Counts, p: Policy)
    requires GateAccepts(c, p.maxClaims) && Meets(c, p) && ValidPolicy(p)
    ensures Passable(c, p)
  {
    assert forall reason :: !Misses(c, p, reason);
    assert !Misses(c, p, Reason.Requested) && !Misses(c, p, Scanned) && !Misses(c, p, ModelSucceeded)
      && !Misses(c, p, Promotion) && !Misses(c, p, TriageRejected) && !Misses(c, p, Duplicate)
      && !Misses(c, p, NoOps) && !Misses(c, p, ModelFailure) && !Misses(c, p, InvalidOrUnsafe);
    hide Reaches, Stays, Meets;
    ReachesMeans(c.wouldProposeClaims, c.candidateClaims, p.minPromotion);
    ReachesMeans(c.triageRejected, c.scanned, p.minRejected);
    StaysMeans(c.triageRejected, c.scanned, p.maxRejected);
    StaysMeans(c.duplicateClaims, c.candidateClaims, p.maxDuplicate);
    StaysMeans(c.modelNoOp, c.modelSucceeded, p.maxNoOp);
    StaysMeans(c.modelFailed, c.modelAttempted, p.maxFailure);
    StaysMeans(c.invalidOrUnsafeClaims, c.candidateClaims, p.maxUnsafe);
  }

  /** What is true of every report that passes: what it is about, and its counters against the thresholds. */
  lemma PassMeans(report: QualityReport, policy: Policy, key: QualityKey, release: string, config: string, now: int,
                  maxAge: nat)
    requires Verify(report, policy, key, release, config, now, maxAge).Pass?
    ensures var b := report.body;
      && b.policy == policy && b.release == release && b.config == config && b.keyId == key.id
      && report.digest == b && report.signature == Signature(key.secret, b)
      && b.pass && b.reasons == [] && TrueRates(b.sample, b.rates) && 0 <= now - b.completedAt <= maxAge
    ensures Passable(report.body.sample, policy)
    ensures 1 <= policy.maxClaims <= 3 && 1 <= policy.minSucceeded <= policy.minScanned <= policy.minRequested <= 20
  {
    GateIff(report, policy, key, release, config, now, maxAge);
    RatesAreTrue(report.body.sample);
    MeetsMeans(report.body.sample, policy);
    hide DeriveRates, Assess, Meets, TrueRates, Passable, GateAccepts;
  }

  lemma ShareIsUnique(r: nat, q: nat, n: nat, d: nat)
    requires Share(r, n, d) && Share(q, n, d)
    ensures r == q
  {
    ShareReaches(r, n, d, q);
    ShareReaches(q, n, d, q);
    ShareReaches(q, n, d, r);
    ShareReaches(r, n, d, r);
  }

  /** The true rates are the derived ones. */
  lemma RatesAreUnique(c: Counts, r: Rates)
    ensures TrueRates(c, r) <==> r == DeriveRates(c)
  {
    RatesAreTrue(c);
    var q := DeriveRates(c);
    if TrueRates(c, r) {
      ShareIsUnique(r.promotion, q.promotion, c.wouldProposeClaims, c.candidateClaims);
      ShareIsUnique(r.duplicate, q.duplicate, c.duplicateClaims, c.candidateClaims);
      ShareIsUnique(r.unsafe, q.unsafe, c.invalidOrUnsafeClaims, c.candidateClaims);
      ShareIsUnique(r.rejected, q.rejected, c.triageRejected, c.scanned);
      ShareIsUnique(r.noOp, q.noOp, c.modelNoOp, c.modelSucceeded);
      ShareIsUnique(r.failure, q.failure, c.modelFailed, c.modelAttempted);
      hide DeriveRates, Share;
    }
  }

  /** What each refusal of the gate says of the report. */
  lemma VerdictMeans(report: QualityReport, policy: Policy, key: QualityKey, release: string, config: string, now: int,
                     maxAge: nat)
    ensures var b := report.body;
      match Verify(report, policy, key, release, config, now, maxAge)
      case Pass => true
      case Invalid => b.keyId != key.id || !ValidPolicy(policy)
      case DigestMismatch => report.digest != b
      case SignatureInvalid => report.signature.secret != key.secret || report.signature.payload != b
      case PolicyMismatch => b.policy != policy
      case ReleaseMismatch => b.release != release
      case ConfigMismatch => b.config != config
      case CountsInvalid => !GateAccepts(b.sample, policy.maxClaims)
      case RatesInvalid => !TrueRates(b.sample, b.rates)
      case AssessmentInvalid =>
        (b.pass <==> !Meets(b.sample, policy)) || b.reasons != Assess(b.sample, DeriveRates(b.sample), policy)
      case NotPass =>
        !b.pass && b.reasons != [] && forall reason | reason in b.reasons :: Misses(b.sample, policy, reason)
      case Future => Meets(b.sample, policy) && now < b.completedAt
      case Stale => Meets(b.sample, policy) && now - b.completedAt > maxAge
  {
    var b := report.body;
    RatesAreUnique(b.sample, b.rates);
    AssessIff(b.sample, policy);
    hide DeriveRates, Assess, Meets, Misses, GateAccepts, ValidPolicy, TrueRates;
  }

  /** A sample with candidates and nothing new to propose never passes a policy that asks for some. */
  lemma NothingToPropose(report: QualityReport, policy: Policy, key: QualityKey, release: string, config: string,
                         now: int, maxAge: nat)
    requires report.body.sample.wouldProposeClaims == 0 && policy.minPromotion > 0
    ensures !Verify(report, policy, key, release, config, now, maxAge).Pass?
  {
    GateIff(report, policy, key, release, config, now, maxAge);
    var c := report.body.sample;
    hide GateAccepts, ValidPolicy, CreateReport, Verify;
    assert c.candidateClaims > 0 ==> policy.minPromotion * c.candidateClaims > 0;
    assert Misses(c, policy, Promotion);
  }
}
