/** The string helpers that the other modules share. */
module Text {

  function LowerChar(c: char): char {
    if 'A' <= c <= 'Z' then c + 32 as char else c
  }

  /** `to_ascii_lowercase`. */
  function Lower(s: string): (r: string)
    ensures |r| == |s|
    ensures forall i :: 0 <= i < |s| ==> r[i] == LowerChar(s[i])
  {
    if s == [] then [] else [LowerChar(s[0])] + Lower(s[1..])
  }

  /** `replace` of one character by another. */
  function ReplaceChar(s: string, from: char, to: char): (r: string)
    ensures |r| == |s|
    ensures forall i :: 0 <= i < |s| ==> r[i] == if s[i] == from then to else s[i]
  {
    if s == [] then [] else [if s[0] == from then to else s[0]] + ReplaceChar(s[1..], from, to)
  }

  function TrimStart(s: string, c: char): string {
    if s != [] && s[0] == c then TrimStart(s[1..], c) else s
  }

  function TrimEnd(s: string, c: char): string {
    if s != [] && s[|s| - 1] == c then TrimEnd(s[..|s| - 1], c) else s
  }

  /** The canonical form in which correlation compares paths (`path` in correlation.rs). */
  function CanonicalPath(s: string): string {
    Lower(ReplaceChar(TrimEnd(TrimStart(s, '"'), '"'), '/', '\\'))
  }

  // The canonical form forgets case, the direction of slashes and surrounding quotes, and nothing else.

  /** Two characters that paths do not tell apart. */
  predicate Alike(c: char, d: char) {
    || c == d || (c in {'/', '\\'} && d in {'/', '\\'})
    || ('A' <= c <= 'Z' && d == c + 32 as char) || ('A' <= d <= 'Z' && c == d + 32 as char)
  }

  predicate AllAlike(s: string, t: string) {
    |s| == |t| && forall i :: 0 <= i < |s| ==> Alike(s[i], t[i])
  }

  predicate Unquoted(s: string) {
    s != "" ==> s[0] != '"' && s[|s| - 1] != '"'
  }

  function PathChar(c: char): char { LowerChar(if c == '/' then '\\' else c) }

  lemma AlikeExactly(c: char, d: char)
    ensures Alike(c, d) <==> PathChar(c) == PathChar(d)
  {}

  lemma CanonicalAt(s: string)
    requires Unquoted(s)
    ensures |CanonicalPath(s)| == |s| && forall i :: 0 <= i < |s| ==> CanonicalPath(s)[i] == PathChar(s[i])
  {}

  /** Paths without quotes around them have the same form exactly when they differ in case and slashes only. */
  lemma SamePathExactly(s: string, t: string)
    requires Unquoted(s) && Unquoted(t)
    ensures CanonicalPath(s) == CanonicalPath(t) <==> AllAlike(s, t)
  {
    CanonicalAt(s);
    CanonicalAt(t);
    forall i | 0 <= i < |s| && i < |t| ensures Alike(s[i], t[i]) <==> PathChar(s[i]) == PathChar(t[i]) {
      AlikeExactly(s[i], t[i]);
    }
    if CanonicalPath(s) == CanonicalPath(t) {
      forall i | 0 <= i < |s| ensures Alike(s[i], t[i]) {
        assert CanonicalPath(s)[i] == CanonicalPath(t)[i];
      }
    }
  }

  /** Any number of quotes on either side makes no difference. */
  lemma {:induction false} QuotesAround(s: string, before: nat, after: nat)
    requires Unquoted(s)
    ensures CanonicalPath(Quotes(before) + s + Quotes(after)) == CanonicalPath(s)
  {
    TrimsStart(s + Quotes(after), s, before, after);
    assert Quotes(before) + s + Quotes(after) == Quotes(before) + (s + Quotes(after));
    if s == "" {
      QuotesSum(before, after);
      assert Quotes(before) + s + Quotes(after) == Quotes(before + after);
      TrimsAll(before + after);
    } else {
      TrimsEnd(s, after);
    }
  }

  function Quotes(n: nat): (q: string)
    ensures |q| == n && forall i :: 0 <= i < n ==> q[i] == '"'
  {
    seq(n, _ => '"')
  }

  lemma QuotesSum(m: nat, n: nat)
    ensures Quotes(m) + Quotes(n) == Quotes(m + n)
  {}

  lemma {:induction false} TrimsAll(n: nat)
    ensures TrimStart(Quotes(n), '"') == ""
  {
    if n > 0 {
      assert Quotes(n)[1..] == Quotes(n - 1);
      TrimsAll(n - 1);
    }
  }

  lemma {:induction false} TrimsStart(rest: string, s: string, before: nat, after: nat)
    requires rest == s + Quotes(after) && Unquoted(s)
    ensures s != "" ==> TrimStart(Quotes(before) + rest, '"') == rest
  {
    if s != "" {
      if before == 0 {
        assert Quotes(0) + rest == rest && rest[0] == s[0];
      } else {
        assert (Quotes(before) + rest)[1..] == Quotes(before - 1) + rest && (Quotes(before) + rest)[0] == '"';
        TrimsStart(rest, s, before - 1, after);
      }
    }
  }

  lemma {:induction false} TrimsEnd(s: string, after: nat)
    requires s != "" && Unquoted(s)
    ensures TrimEnd(s + Quotes(after), '"') == s
  {
    if after == 0 {
      assert s + Quotes(0) == s;
    } else {
      var all := s + Quotes(after);
      assert all[..|all| - 1] == s + Quotes(after - 1) && all[|all| - 1] == '"';
      TrimsEnd(s, after - 1);
    }
  }

  /** `contains`. */
  predicate Contains(s: string, part: string) {
    exists i :: 0 <= i <= |s| && OccursAt(s, part, i)
  }

  predicate OccursAt(s: string, part: string, i: nat)
    requires i <= |s|
  {
    part <= s[i..]
  }

  /** Rust's `char::is_whitespace`: the Unicode White_Space property. */
  predicate IsWhitespace(c: char) {
    || '\U{9}' <= c <= '\U{D}' || c == ' ' || c == '\U{85}' || c == '\U{A0}' || c == '\U{1680}'
    || '\U{2000}' <= c <= '\U{200A}' || c == '\U{2028}' || c == '\U{2029}' || c == '\U{202F}'
    || c == '\U{205F}' || c == '\U{3000}'
  }

  /** `split` at a character. */
  function Split(s: string, at: char): (r: seq<string>)
    ensures r != []
  {
    if s == "" then [""]
    else
      var rest := Split(s[1..], at);
      if s[0] == at then [""] + rest else [[s[0]] + rest[0]] + rest[1..]
  }

  /** The parts with the separator between them. */
  function JoinWith(parts: seq<string>, at: char): string {
    if parts == [] then "" else if |parts| == 1 then parts[0] else parts[0] + [at] + JoinWith(parts[1..], at)
  }

  lemma {:induction false} SplitOff(part: string, at: char, rest: string)
    requires at !in part
    ensures Split(part, at) == [part]
    ensures Split(part + [at] + rest, at) == [part] + Split(rest, at)
  {
    if part == "" {
      assert "" + [at] + rest == [at] + rest && ([at] + rest)[1..] == rest;
    } else {
      var all := part + [at] + rest;
      assert all[1..] == part[1..] + [at] + rest && all[0] == part[0];
      SplitOff(part[1..], at, rest);
      assert [part[0]] + part[1..] == part;
    }
  }

  /** Splitting gives the parts back in order. */
  lemma {:induction false} SplitJoined(parts: seq<string>, at: char)
    requires parts != [] && forall p :: p in parts ==> at !in p
    ensures Split(JoinWith(parts, at), at) == parts
  {
    if |parts| == 1 {
      SplitOff(parts[0], at, "");
    } else {
      SplitJoined(parts[1..], at);
      SplitOff(parts[0], at, JoinWith(parts[1..], at));
    }
  }

  /** And joining what was split gives the text back, with no separator left in the parts. */
  lemma {:induction false} JoinedSplit(s: string, at: char)
    ensures JoinWith(Split(s, at), at) == s && forall p :: p in Split(s, at) ==> at !in p
  {
    if s != "" {
      var rest := Split(s[1..], at);
      JoinedSplit(s[1..], at);
      assert s == [s[0]] + s[1..];
      if s[0] == at { JoinEmpty(rest, at); } else { JoinLonger(s[0], rest, at); }
    }
  }

  lemma JoinEmpty(rest: seq<string>, at: char)
    requires rest != []
    ensures JoinWith([""] + rest, at) == [at] + JoinWith(rest, at)
  {
    assert ([""] + rest)[1..] == rest && "" + [at] == [at];
  }

  lemma JoinLonger(c: char, rest: seq<string>, at: char)
    requires rest != []
    ensures JoinWith([[c] + rest[0]] + rest[1..], at) == [c] + JoinWith(rest, at)
  {
    var longer := [[c] + rest[0]] + rest[1..];
    assert longer[1..] == rest[1..];
    if |rest| > 1 {
      assert [c] + rest[0] + [at] + JoinWith(rest[1..], at) == [c] + (rest[0] + [at] + JoinWith(rest[1..], at));
    }
  }

  /** These are the 25 white space characters of Unicode, by their codes. */
  lemma WhitespaceExactly(c: char)
    ensures IsWhitespace(c) <==>
              c as int in {9, 10, 11, 12, 13, 32, 133, 160, 5760, 8192, 8193, 8194, 8195, 8196, 8197, 8198, 8199, 8200,
                           8201, 8202, 8232, 8233, 8239, 8287, 12288}
  {}

  // ----- decimal numbers -----

  function Digit(n: nat): char
    requires n < 10
  {
    '0' + n as char
  }

  /** Decimal digits, with leading zeros up to `width`. */
  function Padded(n: nat, width: nat): string
    decreases n + width
  {
    if n == 0 && width == 0 then "" else Padded(n / 10, if width > 0 then width - 1 else 0) + [Digit(n % 10)]
  }

  /** The number that a text of decimal digits stands for. */
  function Decimal(s: string): nat {
    if s == "" then 0
    else
      var c := s[|s| - 1];
      10 * Decimal(s[..|s| - 1]) + if '0' <= c <= '9' then c as nat - '0' as nat else 0
  }

  /** It is the number, has the digits that were asked for, and more of them only where they are needed. */
  lemma {:induction false} PaddedIsDecimal(n: nat, width: nat)
    ensures Decimal(Padded(n, width)) == n && |Padded(n, width)| >= width
    ensures forall c :: c in Padded(n, width) ==> '0' <= c <= '9'
    ensures |Padded(n, width)| > width ==> Padded(n, width)[0] != '0'
    decreases n + width
  {
    if n != 0 || width != 0 {
      var less := if width > 0 then width - 1 else 0;
      PaddedIsDecimal(n / 10, less);
      var front := Padded(n / 10, less);
      assert Padded(n, width) == front + [Digit(n % 10)];
      assert (front + [Digit(n % 10)])[..|front|] == front;
    }
  }

  function TenTo(width: nat): nat {
    if width == 0 then 1 else 10 * TenTo(width - 1)
  }

  lemma {:induction false} PaddedWidth(n: nat, width: nat)
    requires n < TenTo(width)
    ensures |Padded(n, width)| == width
    decreases width
  {
    if width > 0 { PaddedWidth(n / 10, width - 1); }
  }

  lemma SameParts(a: string, b: string, c: string, d: string)
    requires a + b == c + d && (|b| == |d| || |a| == |c|)
    ensures a == c && b == d
  {
    assert a == (a + b)[..|a|] && c == (c + d)[..|c|];
    assert b == (a + b)[|a|..] && d == (c + d)[|c|..];
  }

  lemma {:induction false} PaddedInjective(m: nat, n: nat, width: nat)
    requires Padded(m, width) == Padded(n, width)
    ensures m == n
    decreases m + width
  {
    var less := if width > 0 then width - 1 else 0;
    if m != 0 || n != 0 || width != 0 {
      assert m != 0 || width != 0;
      SameParts(Padded(m / 10, less), [Digit(m % 10)], Padded(n / 10, less), [Digit(n % 10)]);
      PaddedInjective(m / 10, n / 10, less);
    }
  }
}
