/** The String.prototype methods the services rely on. */
module Text {

  /** White space and line terminators of ECMA-262, section 12.2 and 12.3: what trim removes. */
  predicate IsSpace(c: char) {
    || c in {' ', '\t', '\n', '\r', '\U{0B}', '\U{0C}', '\U{A0}', '\U{1680}', '\U{2028}', '\U{2029}', '\U{202F}', '\U{205F}', '\U{3000}', '\U{FEFF}'}
    || '\U{2000}' <= c <= '\U{200A}'
  }

  /** By code point. */
  lemma SpacesAre(c: char)
    ensures IsSpace(c)
       <==> var n := c as int;
            9 <= n <= 13 || n in {32, 160, 5760, 8232, 8233, 8239, 8287, 12288, 65279} || 8192 <= n <= 8202
  {
  }

  function TrimStart(s: string): (r: string)
    ensures |r| <= |s|
    ensures r != "" ==> !IsSpace(r[0])
  {
    if s != "" && IsSpace(s[0]) then TrimStart(s[1..]) else s
  }

  function TrimEnd(s: string): (r: string)
    ensures |r| <= |s|
    ensures r != "" ==> !IsSpace(r[|r| - 1])
  {
    if s != "" && IsSpace(s[|s| - 1]) then TrimEnd(s[..|s| - 1]) else s
  }

  function Trim(s: string): string {
    TrimEnd(TrimStart(s))
  }

  predicate Blank(s: string) {
    forall i | 0 <= i < |s| :: IsSpace(s[i])
  }

  /** Trimmed text has no white space at either end. */
  predicate Trimmed(s: string) {
    s != "" ==> !IsSpace(s[0]) && !IsSpace(s[|s| - 1])
  }

  lemma TrimFixed(s: string)
    requires Trimmed(s)
    ensures Trim(s) == s
  {
  }

  lemma {:induction false} TrimStartBlank(s: string)
    ensures TrimStart(s) == "" <==> Blank(s)
  {
    if s != "" && IsSpace(s[0]) {
      TrimStartBlank(s[1..]);
      if Blank(s[1..]) {
        forall i | 0 <= i < |s| ensures IsSpace(s[i]) { if i > 0 { assert s[1..][i - 1] == s[i]; } }
      }
      if Blank(s) { forall i | 0 <= i < |s[1..]| ensures IsSpace(s[1..][i]) { assert s[1..][i] == s[i + 1]; } }
    }
  }

  lemma {:induction false} TrimEndKeepsFirst(s: string)
    requires s != "" && !IsSpace(s[0])
    ensures TrimEnd(s) != "" && TrimEnd(s)[0] == s[0]
  {
    if IsSpace(s[|s| - 1]) { TrimEndKeepsFirst(s[..|s| - 1]); }
  }

  /** A text trims to nothing exactly when it is all white space. */
  lemma TrimEmptyIff(s: string)
    ensures Trim(s) == "" <==> Blank(s)
  {
    TrimStartBlank(s);
    if TrimStart(s) != "" { TrimEndKeepsFirst(TrimStart(s)); }
  }

  function LowerChar(c: char): char {
    if 'A' <= c <= 'Z' then (c as int + 32) as char else c
  }

  lemma LetterIs(k: nat)
    requires k < 26
    ensures LowerChar("ABCDEFGHIJKLMNOPQRSTUVWXYZ"[k]) == "abcdefghijklmnopqrstuvwxyz"[k]
  {
  }

  /** toLowerCase on the letters that matter to the callers, which compare with ASCII words. */
  function Lower(s: string): (r: string)
    ensures |r| == |s|
  {
    if s == "" then "" else [LowerChar(s[0])] + Lower(s[1..])
  }

  const NUL := '\U{0}'

  /** The composite keys the services build with a NUL between two ids. */
  function Joined(first: string, second: string): string {
    first + [NUL] + second
  }

  /** Such a key names one pair as long as the second id holds no NUL, which a PostgreSQL text column cannot. */
  lemma JoinedIsInjective(a: string, b: string, c: string, d: string)
    requires NUL !in b && NUL !in d
    ensures Joined(a, b) == Joined(c, d) <==> a == c && b == d
  {
    if Joined(a, b) == Joined(c, d) {
      LastNul(a, b);
      LastNul(c, d);
      assert |a| == |c|;
      assert Joined(a, b)[..|a|] == a && Joined(c, d)[..|c|] == c;
      assert Joined(a, b)[|a| + 1..] == b && Joined(c, d)[|c| + 1..] == d;
    }
  }

  lemma LastNul(a: string, b: string)
    requires NUL !in b
    ensures Joined(a, b)[|a|] == NUL
    ensures forall k | |a| < k < |Joined(a, b)| :: Joined(a, b)[k] != NUL
  {
    var x := Joined(a, b);
    forall k | |a| < k < |x| ensures x[k] != NUL { assert x[k] == b[k - |a| - 1]; }
  }
}
