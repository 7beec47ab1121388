/** A plan is confirmed by the digest of its canonical text: what that text says of the plan, and what it leaves to
    be found again. */
module HostAdminDigest {
  import opened Wrappers
  import opened Canonical
  import opened CanonicalEquality
  import opened HostAdmin

  /** How digests are written: two of them never alike. */
  ghost predicate Injective(hex: Digest -> string) {
    forall a, b :: hex(a) == hex(b) ==> a == b
  }

  // ---- The plan as JSON ----

  function DigestJson(digest: Option<Digest>, hex: Digest -> string): Json {
    if digest.None? then Null else Text(hex(digest.value))
  }

  function SourceJson(source: Source, hex: Digest -> string): Json {
    Object([("path", Text(source.path)), ("sha256", Text(hex(Sha256(source.content))))])
  }

  function SourcesJson(sources: seq<Source>, hex: Digest -> string): (r: seq<Json>)
    ensures |r| == |sources| && forall i | 0 <= i < |sources| :: r[i] == SourceJson(sources[i], hex)
  {
    seq(|sources|, i requires 0 <= i < |sources| => SourceJson(sources[i], hex))
  }

  /** The observations in the order of `keys`. */
  function ObservedJson(observed: map<string, Option<Digest>>, hex: Digest -> string,
                        keys: seq<string>): (r: seq<(string, Json)>)
    requires forall f | f in keys :: f in observed
    ensures |r| == |keys|
    ensures forall i | 0 <= i < |keys| :: r[i] == (keys[i], DigestJson(observed[keys[i]], hex))
  {
    seq(|keys|, i requires 0 <= i < |keys| => (keys[i], DigestJson(observed[keys[i]], hex)))
  }

  /** Each observed path once. */
  ghost predicate Lists(keys: seq<string>, plan: Plan) {
    && (forall f :: f in keys <==> f in plan.observed)
    && forall i, j | 0 <= i < j < |keys| :: keys[i] != keys[j]
  }

  /** The sources without the manifest, which is not in the plan. */
  function Given(plan: Plan): seq<Source> {
    if plan.material == [] then [] else plan.material[..|plan.material| - 1]
  }

  /** The state of the token, its stat fields as one text. */
  function TokenJson(token: TokenState): Json {
    match token
    case NoToken => Null
    case Token(identity) => Text(identity)
  }

  const NAMES: seq<string> := ["revision", "runtimeRoot", "unitPath", "sources", "observed", "token", "changes", "noOp"]

  function Values(plan: Plan, hex: Digest -> string, keys: seq<string>): (r: seq<Json>)
    requires forall f | f in keys :: f in plan.observed
    ensures |r| == |NAMES|
  {
    [Text(plan.manifest.revision), Text(plan.manifest.runtimeRoot), Text(plan.manifest.unitPath),
     Array(SourcesJson(Given(plan), hex)), Object(ObservedJson(plan.observed, hex, keys)), TokenJson(plan.token),
     Array(SourcesJson(plan.changes, hex)), Boolean(plan.changes == [] && plan.token.Token?)]
  }

  /** The plan as it is digested, its observations in any order. `sources` stands for the blobs and the digests of
      the two configuration files, which fix what is installed. Neither the manifest nor any file is in it. */
  function PlanJson(plan: Plan, hex: Digest -> string, keys: seq<string>): Json
    requires forall f | f in keys :: f in plan.observed
  {
    var values := Values(plan, hex, keys);
    Object(seq(|NAMES|, i requires 0 <= i < |NAMES| => (NAMES[i], values[i])))
  }

  /** The plan says that there is nothing to do exactly if it lists no change and the token is there. */
  lemma NoOpIsSaid(plan: Plan, hex: Digest -> string, keys: seq<string>)
    requires forall f | f in keys :: f in plan.observed
    ensures var json := PlanJson(plan, hex, keys);
      json.Object? && |json.fields| == 8
      && (json.fields[7] == ("noOp", Boolean(true)) <==> plan.changes == [] && plan.token.Token?)
  {
  }

  lemma NamesDiffer()
    ensures forall i, j | 0 <= i < j < |NAMES| :: NAMES[i] != NAMES[j]
  {
    assert NAMES[0][0] == 'r' && NAMES[2][0] == 'u' && NAMES[4][0] == 'o' && NAMES[3][0] == 's' && NAMES[6][0] == 'c';
    assert |NAMES[0]| == 8 && |NAMES[1]| == 11 && |NAMES[2]| == 8 && |NAMES[3]| == 7 && |NAMES[4]| == 8;
    assert |NAMES[5]| == 5 && |NAMES[6]| == 7 && |NAMES[7]| == 4;
  }

  lemma TextIsProper(s: string)
    ensures Proper(Text(s))
  {
  }

  lemma SourcesAreProper(sources: seq<Source>, hex: Digest -> string)
    ensures Proper(Array(SourcesJson(sources, hex)))
  {
    forall i | 0 <= i < |sources| ensures Proper(SourcesJson(sources, hex)[i]) {
      assert "path"[0] != "sha256"[0];
    }
  }

  lemma ObservedIsProper(plan: Plan, hex: Digest -> string, keys: seq<string>)
    requires Lists(keys, plan)
    ensures Proper(Object(ObservedJson(plan.observed, hex, keys)))
  {
  }

  lemma PlanIsProper(plan: Plan, hex: Digest -> string, keys: seq<string>)
    requires Lists(keys, plan)
    ensures Proper(PlanJson(plan, hex, keys))
  {
    NamesDiffer();
    SourcesAreProper(Given(plan), hex);
    SourcesAreProper(plan.changes, hex);
    ObservedIsProper(plan, hex, keys);
    var values := Values(plan, hex, keys);
    hide SourcesJson, ObservedJson, Lists;
    assert forall i | 0 <= i < |values| :: Proper(values[i]);
    hide Values, NAMES;
  }

  // ---- Equal values, equal plans ----

  /** Objects with the same keys in the same places are compared place by place. */
  lemma FieldByField(x: seq<(string, Json)>, y: seq<(string, Json)>, i: nat)
    requires SameValue(Object(x), Object(y)) && i < |x| == |y| && DistinctKeys(y)
    requires forall k | 0 <= k < |x| :: x[k].0 == y[k].0
    ensures SameValue(x[i].1, y[i].1)
  {
    var j := Find(Object(x), i, Object(y));
    assert y[j].0 == y[i].0;
  }

  lemma {:induction false} SameValueWithItself(v: Json)
    requires Proper(v)
    ensures SameValue(v, v)
  {
    SameOrdered(v, v);
  }

  lemma SameSources(a: seq<Source>, b: seq<Source>, hex: Digest -> string)
    requires Injective(hex) && SameValue(Array(SourcesJson(a, hex)), Array(SourcesJson(b, hex)))
    ensures a == b
  {
    assert |a| == |b|;
    forall i | 0 <= i < |a| ensures a[i] == b[i] {
      var x, y := SourceJson(a[i], hex), SourceJson(b[i], hex);
      assert SameValue(SourcesJson(a, hex)[i], SourcesJson(b, hex)[i]);
      SameSource(a[i], b[i], hex);
    }
  }

  lemma SameSource(a: Source, b: Source, hex: Digest -> string)
    requires Injective(hex) && SameValue(SourceJson(a, hex), SourceJson(b, hex))
    ensures a == b
  {
    var x, y := SourceJson(a, hex).fields, SourceJson(b, hex).fields;
    assert "path"[0] != "sha256"[0];
    FieldByField(x, y, 0);
    FieldByField(x, y, 1);
    assert hex(Sha256(a.content)) == hex(Sha256(b.content));
  }

  lemma SameObserved(p: Plan, q: Plan, hex: Digest -> string, k: seq<string>, l: seq<string>)
    requires Injective(hex) && Lists(k, p) && Lists(l, q)
    requires SameValue(Object(ObservedJson(p.observed, hex, k)), Object(ObservedJson(q.observed, hex, l)))
    ensures p.observed == q.observed
  {
    var a, b := Object(ObservedJson(p.observed, hex, k)), Object(ObservedJson(q.observed, hex, l));
    forall f | f in p.observed ensures f in q.observed && q.observed[f] == p.observed[f] {
      var i :| 0 <= i < |k| && k[i] == f;
      var j := Find(a, i, b);
    }
    forall f | f in q.observed ensures f in p.observed {
      var j :| 0 <= j < |l| && l[j] == f;
      var i := FindBack(a, b, j);
    }
  }

  lemma ObservedInAnyOrder(p: Plan, hex: Digest -> string, k: seq<string>, l: seq<string>)
    requires Lists(k, p) && Lists(l, p)
    ensures SameValue(Object(ObservedJson(p.observed, hex, k)), Object(ObservedJson(p.observed, hex, l)))
  {
    var a, b := Object(ObservedJson(p.observed, hex, k)), Object(ObservedJson(p.observed, hex, l));
    forall i | 0 <= i < |k| ensures Found(a, i, b) {
      assert k[i] in l;
      var j :| 0 <= j < |l| && l[j] == k[i];
      SameValueWithItself(a.fields[i].1);
      assert a.fields[i].0 == b.fields[j].0 && SameValue(a.fields[i].1, b.fields[j].1);
    }
    forall j | 0 <= j < |l| ensures FoundBack(a, b, j) {
      assert l[j] in k;
      var i :| 0 <= i < |k| && k[i] == l[j];
      SameValueWithItself(a.fields[i].1);
      assert a.fields[i].0 == b.fields[j].0 && SameValue(a.fields[i].1, b.fields[j].1);
    }
  }

  /** The digested parts of the plans are the same. */
  predicate SameParts(p: Plan, q: Plan) {
    && p.manifest.revision == q.manifest.revision && p.manifest.runtimeRoot == q.manifest.runtimeRoot
    && p.manifest.unitPath == q.manifest.unitPath && Given(p) == Given(q) && p.observed == q.observed
    && p.token == q.token && p.changes == q.changes
  }

  lemma SameValueSameParts(p: Plan, q: Plan, hex: Digest -> string, k: seq<string>, l: seq<string>)
    requires Injective(hex) && Lists(k, p) && Lists(l, q)
    requires SameValue(PlanJson(p, hex, k), PlanJson(q, hex, l))
    ensures SameParts(p, q)
  {
    var x, y := PlanJson(p, hex, k).fields, PlanJson(q, hex, l).fields;
    hide SameValue, SourcesJson, ObservedJson, Injective;
    NamesDiffer();
    forall i | 0 <= i < |x| ensures SameValue(Values(p, hex, k)[i], Values(q, hex, l)[i]) {
      FieldByField(x, y, i);
    }
    hide NAMES;
    SameText(p.manifest.revision, q.manifest.revision, Values(p, hex, k)[0], Values(q, hex, l)[0]);
    SameText(p.manifest.runtimeRoot, q.manifest.runtimeRoot, Values(p, hex, k)[1], Values(q, hex, l)[1]);
    SameText(p.manifest.unitPath, q.manifest.unitPath, Values(p, hex, k)[2], Values(q, hex, l)[2]);
    assert SameValue(Values(p, hex, k)[3], Values(q, hex, l)[3]);
    SameSources(Given(p), Given(q), hex);
    assert SameValue(Values(p, hex, k)[4], Values(q, hex, l)[4]);
    SameObserved(p, q, hex, k, l);
    SameToken(p.token, q.token, Values(p, hex, k)[5], Values(q, hex, l)[5]);
    assert SameValue(Values(p, hex, k)[6], Values(q, hex, l)[6]);
    SameSources(p.changes, q.changes, hex);
  }

  lemma SameText(a: string, b: string, v: Json, w: Json)
    requires v == Text(a) && w == Text(b) && SameValue(v, w)
    ensures a == b
  {
  }

  lemma SameToken(a: TokenState, b: TokenState, v: Json, w: Json)
    requires v == TokenJson(a) && w == TokenJson(b) && SameValue(v, w)
    ensures a == b
  {
  }

  lemma SamePlanSameValue(p: Plan, hex: Digest -> string, k: seq<string>, l: seq<string>)
    requires Lists(k, p) && Lists(l, p)
    ensures SameValue(PlanJson(p, hex, k), PlanJson(p, hex, l))
  {
    PlanIsProper(p, hex, k);
    ObservedInAnyOrder(p, hex, k, l);
    var a, b := PlanJson(p, hex, k), PlanJson(p, hex, l);
    var v, w := Values(p, hex, k), Values(p, hex, l);
    hide SourcesJson, ObservedJson, Lists;
    forall i | 0 <= i < |NAMES| ensures SameValue(v[i], w[i]) {
      if i != 4 {
        assert v[i] == w[i] && Proper(a.fields[i].1);
        SameValueWithItself(v[i]);
      }
    }
    hide Values, NAMES;
    assert forall i | 0 <= i < |a.fields| :: a.fields[i].0 == b.fields[i].0 && SameValue(a.fields[i].1, b.fields[i].1);
    assert forall i | 0 <= i < |a.fields| :: Found(a, i, b);
    assert forall i | 0 <= i < |b.fields| :: FoundBack(a, b, i);
  }

  // ---- The manifest is found again ----

  lemma SuffixOf(a: string, b: string)
    requires a + ("/" + UNIT) == b + ("/" + UNIT)
    ensures a == b
  {
    assert |a| == |b|;
    assert (a + ("/" + UNIT))[..|a|] == a && (b + ("/" + UNIT))[..|b|] == b;
  }

  lemma SameOldManifest(f: Files, r: Request, g: Files, s: Request)
    requires r.runtimeRoot == s.runtimeRoot && r.unitDirectory == s.unitDirectory
    requires Observed(f, r.ManifestPath()) == Observed(g, r.ManifestPath())
    ensures OldManifest(f, r) == OldManifest(g, s)
  {
  }

  lemma PlanParts(f: Files, t: TokenState, r: Request, p: Plan)
    requires PlanOf(f, t, r) == Success(p)
    ensures OldManifest(f, r).Success? && Given(p) == r.material
    ensures p.material == r.material + [Source(r.ManifestPath(), ManifestText(p.manifest, 0))]
    ensures r.ManifestPath() in p.observed && p.observed[r.ManifestPath()] == Observed(f, r.ManifestPath())
    ensures p.manifest == Manifest(SCHEMA, r.runtimeRoot, r.UnitPath(), r.revision,
                                   AssignAll(OldTargets(OldManifest(f, r).value), r.material))
  {
    hide FirstProblem, Changes, AssignAll, OldManifest;
  }

  lemma SameUnitDirectory(r: Request, s: Request)
    requires r.UnitPath() == s.UnitPath()
    ensures r.unitDirectory == s.unitDirectory
  {
    assert r.unitDirectory + "/" + UNIT == r.unitDirectory + ("/" + UNIT);
    assert s.unitDirectory + "/" + UNIT == s.unitDirectory + ("/" + UNIT);
    SuffixOf(r.unitDirectory, s.unitDirectory);
  }

  /** The digested parts fix the whole plan: the old manifest is observed by its digest, so the targets recorded
      before are the same, and so is the new manifest. */
  lemma PartsFixPlan(f: Files, t: TokenState, r: Request, p: Plan, g: Files, u: TokenState, s: Request, q: Plan)
    requires PlanOf(f, t, r) == Success(p) && PlanOf(g, u, s) == Success(q) && SameParts(p, q)
    ensures p == q
  {
    PlanParts(f, t, r, p);
    PlanParts(g, u, s, q);
    hide PlanOf, AssignAll, OldManifest, Observed, Given;
    SameUnitDirectory(r, s);
    SameOldManifest(f, r, g, s);
  }

  /** The digest of a plan, whatever the order of its observations. */
  lemma ConfirmedByDigest(sha: string -> string, hex: Digest -> string,
                          f: Files, t: TokenState, r: Request, p: Plan, k: seq<string>,
                          g: Files, u: TokenState, s: Request, q: Plan, l: seq<string>)
    requires (forall x, y :: sha(x) == sha(y) ==> x == y) && Injective(hex)
    requires PlanOf(f, t, r) == Success(p) && PlanOf(g, u, s) == Success(q) && Lists(k, p) && Lists(l, q)
    ensures sha(Print(PlanJson(p, hex, k))) == sha(Print(PlanJson(q, hex, l))) <==> p == q
  {
    PlanIsProper(p, hex, k);
    PlanIsProper(q, hex, l);
    var a, b := PlanJson(p, hex, k), PlanJson(q, hex, l);
    hide PlanOf, PlanJson, Print, SameValue;
    SameDigestIffSamePlan(sha, a, b);
    if SameValue(a, b) {
      SameValueSameParts(p, q, hex, k, l);
      PartsFixPlan(f, t, r, p, g, u, s, q);
    }
    if p == q { SamePlanSameValue(p, hex, k, l); }
  }
}
