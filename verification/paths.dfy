/** Slash-separated relative paths: splitting, joining, the string order used for manifests, the
    archive-entry normaliser and the containment test of the release installer. */
module Paths {
  import opened Wrappers

  /** A path below some root, as its segments; [] is the root itself. */
  type Path = seq<string>

  const MANIFEST_NAME := ".amf-release-manifest.json"
  const PROTECTED_ROOTS: set<string> := {".env", ".env.runtime", MANIFEST_NAME, "runtime", "var"}

  // ---- Splitting and joining ----

  /** `s.split('/')`: never empty. */
  function Split(s: string): (segments: seq<string>)
    ensures segments != []
  {
    if s == "" then [""]
    else
      var rest := Split(s[1..]);
      if s[0] == '/' then [""] + rest else [[s[0]] + rest[0]] + rest[1..]
  }

  /** `segments.join('/')` */
  function Join(segments: seq<string>): string {
    if segments == [] then ""
    else if |segments| == 1 then segments[0]
    else segments[0] + "/" + Join(segments[1..])
  }

  predicate SlashFree(segments: seq<string>) {
    forall s | s in segments :: '/' !in s
  }

  lemma JoinHead(segments: seq<string>)
    requires segments != []
    ensures Join(segments) == segments[0] + if |segments| == 1 then "" else "/" + Join(segments[1..])
  {
  }

  lemma JoinGrows(c: char, rest: seq<string>)
    requires rest != []
    ensures Join([""] + rest) == "/" + Join(rest)
    ensures Join([[c] + rest[0]] + rest[1..]) == [c] + Join(rest)
  {
    hide Join;
    var empty, longer := [""] + rest, [[c] + rest[0]] + rest[1..];
    JoinHead(rest);
    JoinHead(empty);
    JoinHead(longer);
    assert empty[1..] == rest && longer[1..] == rest[1..];
    assert "" + ("/" + Join(rest)) == "/" + Join(rest);
    var tail := if |rest| == 1 then "" else "/" + Join(rest[1..]);
    assert ([c] + rest[0]) + tail == [c] + (rest[0] + tail);
  }

  lemma SlashFreeGrows(c: char, rest: seq<string>)
    requires rest != [] && SlashFree(rest) && c != '/'
    ensures SlashFree([[c] + rest[0]] + rest[1..])
  {
    assert rest[0] in rest && forall s | s in rest[1..] :: s in rest;
  }

  lemma {:induction false} JoinOfSplit(s: string)
    ensures Join(Split(s)) == s
    ensures SlashFree(Split(s))
  {
    if s != "" {
      hide Join, SlashFree;
      var rest := Split(s[1..]);
      JoinOfSplit(s[1..]);
      JoinGrows(s[0], rest);
      assert s == [s[0]] + s[1..];
      if s[0] == '/' {
        EmptyHeadSlashFree(rest);
      } else {
        SlashFreeGrows(s[0], rest);
      }
    }
  }

  lemma EmptyHeadSlashFree(rest: seq<string>)
    requires SlashFree(rest)
    ensures SlashFree([""] + rest)
  {
  }

  lemma {:induction false} SplitOfSegment(segment: string, tail: string)
    requires '/' !in segment
    ensures Split(segment) == [segment]
    ensures Split(segment + "/" + tail) == [segment] + Split(tail)
  {
    var whole := segment + "/" + tail;
    if segment == "" {
      assert whole[1..] == tail;
    } else {
      SplitOfSegment(segment[1..], tail);
      assert whole[1..] == segment[1..] + "/" + tail;
      assert segment == [segment[0]] + segment[1..];
      assert segment[0] in segment;
    }
  }

  /** Joining loses nothing: two lists of slash-free segments with the same joined string are equal. */
  lemma {:induction false} SplitOfJoin(segments: seq<string>)
    requires segments != [] && SlashFree(segments)
    ensures Split(Join(segments)) == segments
  {
    if |segments| == 1 {
      SplitOfSegment(segments[0], "");
    } else {
      SplitOfJoin(segments[1..]);
      SplitOfSegment(segments[0], Join(segments[1..]));
    }
  }

  // ---- The string order behind sort() and `<` ----

  /** Where a character comes in the order of UTF-16 code units: what lies outside the basic plane is
      written with units below 0xE000. */
  function UnitOrder(c: char): nat {
    if 0xE000 <= c as int <= 0xFFFF then c as int + 0x110000 else c as int
  }

  /** JavaScript's `a < b` on strings, which compares code units. */
  predicate Less(a: string, b: string) {
    if b == "" then false
    else if a == "" then true
    else UnitOrder(a[0]) < UnitOrder(b[0]) || (a[0] == b[0] && Less(a[1..], b[1..]))
  }

  /** A name below another one comes after it. */
  lemma {:induction false} PrefixIsLess(a: Path, b: Path)
    requires a != [] && a < b
    ensures Less(Join(a), Join(b))
  {
    if |a| == 1 {
      assert Join(b) == a[0] + ("/" + Join(b[1..]));
      AppendedIsMore(a[0], "/" + Join(b[1..]));
    } else {
      assert a[1..] < b[1..];
      PrefixIsLess(a[1..], b[1..]);
      LessAppended(a[0] + "/", Join(a[1..]), Join(b[1..]));
    }
  }

  lemma {:induction false} AppendedIsMore(s: string, more: string)
    requires more != ""
    ensures Less(s, s + more)
  {
    if s != "" {
      assert (s + more)[1..] == s[1..] + more;
      AppendedIsMore(s[1..], more);
    }
  }

  lemma {:induction false} LessAppended(s: string, a: string, b: string)
    requires Less(a, b)
    ensures Less(s + a, s + b)
  {
    if s == "" {
      assert s + a == a && s + b == b;
    } else {
      assert (s + a)[1..] == s[1..] + a && (s + b)[1..] == s[1..] + b;
      LessAppended(s[1..], a, b);
    }
  }

  lemma {:induction false} LessTotal(a: string, b: string)
    ensures Less(a, b) || a == b || Less(b, a)
    ensures !(Less(a, b) && Less(b, a))
    ensures !Less(a, a)
  {
    if a != "" && b != "" {
      LessTotal(a[1..], b[1..]);
      if a[0] == b[0] && a[1..] == b[1..] {
        assert a == [a[0]] + a[1..];
        assert b == [b[0]] + b[1..];
      }
    }
    if a != "" { LessTotal(a[1..], a[1..]); }
  }

  lemma {:induction false} LessTransitive(a: string, b: string, c: string)
    requires Less(a, b) && Less(b, c)
    ensures Less(a, c)
  {
    if a != "" && a[0] == b[0] == c[0] { LessTransitive(a[1..], b[1..], c[1..]); }
  }

  /** The code units of UTF-16: one for a character of the basic plane, a high and a low surrogate for any other. */
  function Units(c: char): (units: seq<nat>)
    ensures 1 <= |units| <= 2
  {
    var n := c as int;
    if n < 0x10000 then [n] else [0xD800 + (n - 0x10000) / 0x400, 0xDC00 + (n - 0x10000) % 0x400]
  }

  function Encoded(s: string): seq<nat> {
    if s == "" then [] else Units(s[0]) + Encoded(s[1..])
  }

  predicate UnitsLess(a: seq<nat>, b: seq<nat>) {
    b != [] && (a == [] || a[0] < b[0] || (a[0] == b[0] && UnitsLess(a[1..], b[1..])))
  }

  lemma {:induction false} SameUnitsFirst(u: seq<nat>, a: seq<nat>, b: seq<nat>)
    ensures UnitsLess(u + a, u + b) <==> UnitsLess(a, b)
  {
    if u == [] {
      assert u + a == a && u + b == b;
    } else {
      assert (u + a)[1..] == u[1..] + a && (u + b)[1..] == u[1..] + b;
      SameUnitsFirst(u[1..], a, b);
    }
  }

  lemma OtherUnitsFirst(c: char, d: char, a: seq<nat>, b: seq<nat>)
    requires c != d
    ensures UnitsLess(Units(c) + a, Units(d) + b) <==> UnitOrder(c) < UnitOrder(d)
  {
    var m, n := c as int, d as int;
    var x, y := Units(c) + a, Units(d) + b;
    assert x[0] == Units(c)[0] && y[0] == Units(d)[0];
    if m >= 0x10000 && n >= 0x10000 {
      assert x[1..][0] == Units(c)[1] && y[1..][0] == Units(d)[1];
    }
  }

  /** The order on strings is that of their code units, compared one by one from the left. */
  lemma {:induction false} LessIsByUnits(a: string, b: string)
    ensures Less(a, b) <==> UnitsLess(Encoded(a), Encoded(b))
  {
    if a != "" && b != "" {
      if a[0] == b[0] {
        LessIsByUnits(a[1..], b[1..]);
        SameUnitsFirst(Units(a[0]), Encoded(a[1..]), Encoded(b[1..]));
      } else {
        OtherUnitsFirst(a[0], b[0], Encoded(a[1..]), Encoded(b[1..]));
      }
    }
  }

  function Insert(entry: Path, sorted: seq<Path>): seq<Path> {
    if sorted == [] || Less(Join(entry), Join(sorted[0])) then [entry] + sorted
    else [sorted[0]] + Insert(entry, sorted[1..])
  }

  /** `files.sort()` on the joined names. */
  function Sort(entries: seq<Path>): seq<Path> {
    if entries == [] then [] else Insert(entries[0], Sort(entries[1..]))
  }

  predicate Ascending(entries: seq<Path>) {
    forall i, j | 0 <= i < j < |entries| :: Less(Join(entries[i]), Join(entries[j]))
  }

  lemma {:induction false} InsertHolds(entry: Path, sorted: seq<Path>)
    ensures multiset(Insert(entry, sorted)) == multiset(sorted) + multiset{entry}
  {
    hide Join, Less;
    if sorted != [] && !Less(Join(entry), Join(sorted[0])) {
      InsertHolds(entry, sorted[1..]);
      assert sorted == [sorted[0]] + sorted[1..];
    }
  }

  lemma {:induction false} InsertKeeps(entry: Path, sorted: seq<Path>)
    requires Ascending(sorted)
    requires forall p | p in sorted :: Join(p) != Join(entry)
    ensures Ascending(Insert(entry, sorted))
    ensures multiset(Insert(entry, sorted)) == multiset(sorted) + multiset{entry}
  {
    hide Join, Less;
    InsertHolds(entry, sorted);
    if sorted == [] {
    } else if Less(Join(entry), Join(sorted[0])) {
      var out := [entry] + sorted;
      forall j | 0 < j < |out| ensures Less(Join(entry), Join(out[j])) {
        if j > 1 { LessTransitive(Join(entry), Join(sorted[0]), Join(sorted[j - 1])); }
      }
    } else {
      InsertKeeps(entry, sorted[1..]);
      InsertHolds(entry, sorted[1..]);
      LessTotal(Join(entry), Join(sorted[0]));
      var rest := Insert(entry, sorted[1..]);
      forall j | 0 <= j < |rest| ensures Less(Join(sorted[0]), Join(rest[j])) {
        assert rest[j] in multiset(rest);
        assert rest[j] == entry || rest[j] in sorted[1..];
      }
    }
  }

  predicate NoRepeats<T(==)>(s: seq<T>) {
    forall i, j | 0 <= i < j < |s| :: s[i] != s[j]
  }

  lemma {:induction false} SortPermutes(entries: seq<Path>)
    requires forall p | p in entries :: p != [] && SlashFree(p)
    requires NoRepeats(entries)
    ensures Ascending(Sort(entries))
    ensures multiset(Sort(entries)) == multiset(entries)
  {
    hide Join, Less, Insert;
    if entries != [] {
      var rest := entries[1..];
      assert entries == [entries[0]] + rest;
      assert entries[0] in entries;
      assert forall p | p in rest :: p in entries;
      assert NoRepeats(rest) by {
        assert forall i | 0 <= i < |rest| :: rest[i] == entries[i + 1];
      }
      SortPermutes(rest);
      forall p | p in Sort(rest) ensures Join(p) != Join(entries[0]) {
        assert p in multiset(Sort(rest));
        assert p in rest;
        SplitOfJoin(p);
        SplitOfJoin(entries[0]);
      }
      InsertKeeps(entries[0], Sort(rest));
    }
  }

  /** Sorting a listing without repeats gives the same entries, strictly ascending by joined name. */
  lemma SortSorts(entries: seq<Path>)
    requires NoRepeats(entries)
    requires forall p | p in entries :: p != [] && SlashFree(p)
    ensures Ascending(Sort(entries)) && |Sort(entries)| == |entries|
    ensures forall p :: p in Sort(entries) <==> p in entries
  {
    SortPermutes(entries);
    assert |multiset(Sort(entries))| == |multiset(entries)|;
    forall p ensures p in Sort(entries) <==> p in entries {
      assert p in Sort(entries) <==> p in multiset(Sort(entries));
      assert p in entries <==> p in multiset(entries);
    }
  }

  // ---- Archive entries ----

  datatype EntryError = Unsafe | Persistent

  function WithoutDotSlash(s: string): string {
    if "./" <= s then s[2..] else s
  }

  function WithoutFinalSlash(s: string): string {
    if s != "" && s[|s| - 1] == '/' then s[..|s| - 1] else s
  }

  predicate OrdinarySegment(s: string) {
    s != "" && s != "." && s != ".." && '/' !in s
  }

  predicate Normal(p: Path) {
    forall s | s in p :: OrdinarySegment(s)
  }

  /** None stands for `null`: an entry that names the root itself. */
  function NormalizedEntry(entry: string): Result<Option<string>, EntryError> {
    var trimmed := WithoutFinalSlash(WithoutDotSlash(entry));
    if trimmed == "" || trimmed == "." then Success(None)
    else if trimmed[0] == '/' || '\0' in trimmed then Failure(Unsafe)
    else
      var segments := Split(trimmed);
      if exists s | s in segments :: s == "" || s == "." || s == ".." then Failure(Unsafe)
      else if segments[0] in PROTECTED_ROOTS then Failure(Persistent)
      else Success(Some(Join(segments)))
  }

  /** The paths a release may contain. */
  predicate CodePath(p: Path) {
    p != [] && (forall s | s in p :: OrdinarySegment(s) && '\0' !in s) && p[0] !in PROTECTED_ROOTS
  }

  lemma {:induction false} JoinedChars(p: Path, c: char)
    requires c != '/'
    ensures c in Join(p) <==> exists s | s in p :: c in s
  {
    if |p| > 1 {
      JoinedChars(p[1..], c);
      assert p == [p[0]] + p[1..];
    }
  }

  lemma {:induction false} JoinedEnds(p: Path)
    requires p != [] && Normal(p)
    ensures p[0] != "" && Join(p) != "" && Join(p)[0] == p[0][0] && Join(p)[|Join(p)| - 1] != '/'
    ensures !("./" <= Join(p)) && Join(p) != "."
  {
    var first := p[0];
    assert first in p && OrdinarySegment(first);
    if |p| > 1 {
      JoinedEnds(p[1..]);
      assert Join(p) == first + "/" + Join(p[1..]);
    } else {
      assert first[|first| - 1] in first;
    }
    if |first| > 1 {
      assert first[1] in first;
      assert Join(p)[1] == first[1];
    }
  }

  /** A release path passes through the normaliser unchanged, and nothing else comes out of it:
      whatever the normaliser yields is the joined form of a release path. */
  lemma NormalizerFixesExactlyTheCodePaths(p: Path)
    requires p != [] && Normal(p)
    ensures NormalizedEntry(Join(p)) == Success(Some(Join(p))) <==> CodePath(p)
    ensures NormalizedEntry(Join(p)).Success? <==> CodePath(p)
  {
    JoinedEnds(p);
    SplitOfJoin(p);
    JoinedChars(p, '\0');
    assert p[0] in p && p[0][0] in p[0];
  }

  /** What the normaliser decides about any path of ordinary segments. */
  lemma NormalizerDecides(p: Path)
    requires p != [] && Normal(p)
    ensures NormalizedEntry(Join(p)) ==
      if exists s | s in p :: '\0' in s then Failure(Unsafe)
      else if p[0] in {".env", ".env.runtime", ".amf-release-manifest.json", "runtime", "var"} then Failure(Persistent)
      else Success(Some(Join(p)))
  {
    JoinedEnds(p);
    SplitOfJoin(p);
    JoinedChars(p, '\0');
    assert p[0] in p && p[0][0] in p[0];
    assert PROTECTED_ROOTS == {".env", ".env.runtime", ".amf-release-manifest.json", "runtime", "var"};
  }

  /** The spellings that tar uses for a directory or below the root name the same entry. */
  lemma NormalizerTrims(p: Path)
    requires p != [] && Normal(p)
    ensures NormalizedEntry("./" + Join(p)) == NormalizedEntry(Join(p))
    ensures NormalizedEntry(Join(p) + "/") == NormalizedEntry(Join(p))
    ensures NormalizedEntry("./") == NormalizedEntry(".") == NormalizedEntry("") == Success(None)
  {
    JoinedEnds(p);
    var s := Join(p);
    assert ("./" + s)[2..] == s && (s + "/")[..|s|] == s;
    assert |s| >= 2 ==> (s + "/")[..2] == s[..2];
    assert |s| == 1 ==> s == [s[0]];
    assert "./"[2..] == "";
  }

  /** Any other entry is unsafe, whatever its first segment. */
  lemma NormalizerRefuses(entry: string)
    requires var trimmed := WithoutFinalSlash(WithoutDotSlash(entry));
      trimmed != "" && trimmed != "." && !Normal(Split(trimmed))
    ensures NormalizedEntry(entry) == Failure(Unsafe)
  {
    var trimmed := WithoutFinalSlash(WithoutDotSlash(entry));
    JoinOfSplit(trimmed);
  }

  lemma NormalizerYieldsCodePaths(entry: string)
    requires NormalizedEntry(entry).Success? && NormalizedEntry(entry).value.Some?
    ensures var out := NormalizedEntry(entry).value.value;
      CodePath(Split(out)) && out == WithoutFinalSlash(WithoutDotSlash(entry))
  {
    var trimmed := WithoutFinalSlash(WithoutDotSlash(entry));
    JoinOfSplit(trimmed);
    JoinedChars(Split(trimmed), '\0');
  }

  /** Normalising twice is normalising once. */
  lemma NormalizerIdempotent(entry: string)
    requires NormalizedEntry(entry).Success? && NormalizedEntry(entry).value.Some?
    ensures NormalizedEntry(NormalizedEntry(entry).value.value) == NormalizedEntry(entry)
  {
    NormalizerYieldsCodePaths(entry);
    var out := NormalizedEntry(entry).value.value;
    NormalizerFixesExactlyTheCodePaths(Split(out));
    JoinOfSplit(out);
  }

  // ---- Containment ----

  function CommonLength(a: Path, b: Path): (n: nat)
    ensures n <= |a| && n <= |b| && a[..n] == b[..n]
    ensures n < |a| && n < |b| ==> a[n] != b[n]
  {
    if a == [] || b == [] || a[0] != b[0] then 0
    else
      var n := CommonLength(a[1..], b[1..]);
      assert a[..n + 1] == [a[0]] + a[1..][..n];
      assert b[..n + 1] == [b[0]] + b[1..][..n];
      n + 1
  }

  function Ups(n: nat): Path {
    if n == 0 then [] else [".."] + Ups(n - 1)
  }

  /** `path.relative` on two absolute normalised paths, given by their segments. */
  function Relative(from: Path, to: Path): string {
    var n := CommonLength(from, to);
    Join(Ups(|from| - n) + to[n..])
  }

  predicate Within(parent: Path, candidate: Path) {
    var child := Relative(parent, candidate);
    child == "" || (!("../" <= child) && child != ".." && !("/" <= child))
  }

  /** Containment is exactly the prefix relation on segments. */
  lemma WithinIsPrefix(parent: Path, candidate: Path)
    requires Normal(parent) && Normal(candidate)
    ensures Within(parent, candidate) <==> parent <= candidate
  {
    var n := CommonLength(parent, candidate);
    var rest := candidate[n..];
    if n == |parent| {
      assert Ups(0) + rest == rest;
      if rest != [] {
        JoinedEnds(rest);
        assert rest[0] in rest && OrdinarySegment(rest[0]);
        NotUpwards(rest);
        assert rest[0][0] in rest[0];
      }
    } else {
      var segments := Ups(|parent| - n) + rest;
      assert segments[0] == "..";
      if |segments| > 1 {
        assert Join(segments) == ".." + "/" + Join(segments[1..]);
        assert "../" <= Join(segments);
      }
    }
  }

  lemma UpwardsSplit(s: string)
    ensures "../" <= s || s == ".." ==> Split(s)[0] == ".."
  {
    SplitOfSegment("..", if |s| >= 3 then s[3..] else "");
    if "../" <= s { assert s == ".." + "/" + s[3..]; }
  }

  lemma NotUpwards(p: Path)
    requires p != [] && Normal(p)
    ensures !("../" <= Join(p)) && Join(p) != ".."
  {
    SplitOfJoin(p);
    assert p[0] in p;
    UpwardsSplit(Join(p));
  }

  /** Every normalised entry, joined to a root, stays inside that root. */
  lemma NormalizedEntryStaysInside(root: Path, entry: string)
    requires Normal(root)
    requires NormalizedEntry(entry).Success? && NormalizedEntry(entry).value.Some?
    ensures Within(root, root + Split(NormalizedEntry(entry).value.value))
  {
    NormalizerYieldsCodePaths(entry);
    var segments := Split(NormalizedEntry(entry).value.value);
    assert Normal(segments);
    WithinIsPrefix(root, root + segments);
  }
}
