/** White space as JavaScript's regular expressions and String.prototype.trim know it. */
module Blanks {
  /** What `\s` matches. */
  predicate Blank(c: char) {
    var n := c as int;
    9 <= n <= 13 || n == 0x20 || n == 0xA0 || n == 0x1680 || 0x2000 <= n <= 0x200A
    || n == 0x2028 || n == 0x2029 || n == 0x202F || n == 0x205F || n == 0x3000 || n == 0xFEFF
  }

  /** The six blanks of ASCII. */
  lemma AsciiBlanks(c: char)
    requires c < 128 as char
    ensures Blank(c) <==> c in "\t\n\r " || c == 11 as char || c == 12 as char
  {
  }

  predicate AllBlank(s: string) {
    forall c | c in s :: Blank(c)
  }

  /** How many blanks are at the beginning. */
  function Leading(s: string): (n: nat)
    ensures n <= |s| && AllBlank(s[..n]) && (n < |s| ==> !Blank(s[n]))
  {
    if s == "" || !Blank(s[0]) then 0
    else
      var n := 1 + Leading(s[1..]);
      assert s[..n] == [s[0]] + s[1..][..n - 1];
      n
  }

  /** The length of what remains without the blanks at the end. */
  function Trailing(s: string): (n: nat)
    ensures n <= |s| && AllBlank(s[n..]) && (n > 0 ==> !Blank(s[n - 1]))
  {
    if s == "" || !Blank(s[|s| - 1]) then |s|
    else
      var n := Trailing(s[..|s| - 1]);
      assert s[n..] == s[..|s| - 1][n..] + [s[|s| - 1]];
      n
  }

  /** `s.trim()` */
  function Trim(s: string): string {
    var t := s[Leading(s)..];
    t[..Trailing(t)]
  }

  lemma TrimKeeps(s: string)
    requires s == "" || (!Blank(s[0]) && !Blank(s[|s| - 1]))
    ensures Trim(s) == s
  {
  }

  /** Only blanks are trimmed away. */
  lemma TrimSplits(s: string) returns (left: string, right: string)
    ensures s == left + Trim(s) + right && AllBlank(left) && AllBlank(right)
  {
    var t := s[Leading(s)..];
    left, right := s[..Leading(s)], t[Trailing(t)..];
  }
}
