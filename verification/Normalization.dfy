/**
 The canonical form of an observable (`normalize` in `src/detection/observables.rs`): whatever is
 accepted is accepted again in its canonical form, and stays as it is.
 */
module Normalization {
  import opened Basics
  import opened Text

  // ----- text -----

  /** `char::is_control`. */
  predicate IsControl(c: char) { c <= '\U{1F}' || '\U{7F}' <= c <= '\U{9F}' }

  /** The length of a character in UTF-8. */
  function CharLen(c: char): nat {
    if c <= '\U{7F}' then 1 else if c <= '\U{7FF}' then 2 else if c <= '\U{FFFF}' then 3 else 4
  }

  function Len(s: string): nat {
    if s == "" then 0 else CharLen(s[0]) + Len(s[1..])
  }

  predicate Trimmed(s: string) {
    s != "" ==> !IsWhitespace(s[0]) && !IsWhitespace(s[|s| - 1])
  }

  predicate NoControl(s: string) {
    forall i :: 0 <= i < |s| ==> !IsControl(s[i])
  }

  predicate Presentable(s: string) {
    s != "" && Len(s) <= 2048 && NoControl(s) && Trimmed(s)
  }

  predicate Lowered(s: string) {
    forall i :: 0 <= i < |s| ==> LowerChar(s[i]) == s[i]
  }

  predicate HasNone(s: string, chars: set<char>) {
    forall i :: 0 <= i < |s| ==> s[i] !in chars
  }

  predicate Alphabetic(c: char) { 'a' <= c <= 'z' || 'A' <= c <= 'Z' }

  predicate Alphanumeric(c: char) { Alphabetic(c) || '0' <= c <= '9' }

  // ----- replacing -----

  /** `replace`: from the left, without overlaps. */
  function Replace(s: string, from: string, to: string): string
    requires from != ""
    decreases |s|
  {
    if s == "" then ""
    else if from <= s then to + Replace(s[|from|..], from, to)
    else [s[0]] + Replace(s[1..], from, to)
  }

  /** Two texts differ before either of them ends. */
  predicate Clash(a: string, b: string) {
    exists k :: 0 <= k < |a| && k < |b| && a[k] != b[k]
  }

  /** No occurrence of `q` can share a character with an inserted `to`. */
  predicate Foreign(q: string, to: string) {
    && (forall j :: 0 <= j < |q| ==> Clash(q[j..], to))
    && (forall i :: 0 <= i < |to| ==> Clash(q, to[i..]))
  }

  lemma ClashIsNoPrefix(a: string, b: string, rest: string)
    requires Clash(a, b)
    ensures !(a <= b + rest)
  {
    var k :| 0 <= k < |a| && k < |b| && a[k] != b[k];
    assert (b + rest)[k] == b[k];
  }

  /** What the replaced text begins with, the original text begins with, unless it is what was inserted. */
  lemma {:induction false} PrefixBefore(s: string, from: string, to: string, q: string, j: nat)
    requires from != "" && Foreign(q, to) && j <= |q| && q[j..] <= Replace(s, from, to)
    ensures q[j..] <= s
    decreases |s|
  {
    if j < |q| {
      if from <= s && s != "" {
        ClashIsNoPrefix(q[j..], to, Replace(s[|from|..], from, to));
      } else {
        var rest := Replace(s[1..], from, to);
        assert q[j..][1..] == q[j + 1..] && ([s[0]] + rest)[1..] == rest;
        assert q[j + 1..] <= rest;
        PrefixBefore(s[1..], from, to, q, j + 1);
        assert q[j..] == [q[j]] + q[j + 1..] && s == [s[0]] + s[1..];
      }
    }
  }

  /** Replacing removes every occurrence of its pattern, and brings in none of another one. */
  lemma {:induction false} ReplaceRemoves(s: string, from: string, to: string, q: string)
    requires from != "" && q != "" && Foreign(q, to) && (q == from || !Contains(s, q))
    ensures !Contains(Replace(s, from, to), q)
    decreases |s|
  {
    var r := Replace(s, from, to);
    forall i | 0 <= i <= |r|
      ensures !OccursAt(r, q, i)
    {
      NotAt(s, from, to, q, i);
    }
  }

  lemma {:induction false} NotAt(s: string, from: string, to: string, q: string, i: nat)
    requires from != "" && q != "" && Foreign(q, to) && (q == from || !Contains(s, q))
    requires i <= |Replace(s, from, to)|
    ensures !(q <= Replace(s, from, to)[i..])
    decreases |s|
  {
    var r := Replace(s, from, to);
    if s != "" && from <= s {
      var rest := Replace(s[|from|..], from, to);
      if i < |to| {
        ClashIsNoPrefix(q, to[i..], rest);
        assert r[i..] == to[i..] + rest;
      } else {
        OccursLater(s, q, |from|);
        NotAt(s[|from|..], from, to, q, i - |to|);
        assert r[i..] == rest[i - |to|..];
      }
    } else if s != "" {
      if i == 0 {
        assert r[0..] == r && q[0..] == q && s[0..] == s;
        if q <= r { PrefixBefore(s, from, to, q, 0); }
        assert OccursAt(s, q, 0) <==> q <= s;
      } else {
        OccursLater(s, q, 1);
        NotAt(s[1..], from, to, q, i - 1);
        assert r[i..] == Replace(s[1..], from, to)[i - 1..];
      }
    }
  }

  lemma OccursLater(s: string, q: string, n: nat)
    requires n <= |s|
    ensures Contains(s[n..], q) ==> Contains(s, q)
  {
    if Contains(s[n..], q) {
      var i :| 0 <= i <= |s[n..]| && OccursAt(s[n..], q, i);
      assert s[n..][i..] == s[n + i..];
      assert OccursAt(s, q, n + i);
    }
  }

  lemma {:induction false} ReplaceNothing(s: string, from: string, to: string)
    requires from != "" && !Contains(s, from)
    ensures Replace(s, from, to) == s
    decreases |s|
  {
    if s != "" {
      assert s[0..] == s && (OccursAt(s, from, 0) <==> from <= s);
      OccursLater(s, from, 1);
      ReplaceNothing(s[1..], from, to);
    }
  }

  // ----- registry hives -----

  predicate LongHive(q: string) {
    && |q| >= 3 && q[0] == 'h' && q[1] == 'k' && q[2] == 'e'
    && forall j :: 1 <= j < |q| && q[j] == 'h' ==> j + 1 < |q| && q[j + 1] != 'k'
  }

  predicate ShortHive(to: string) {
    && |to| >= 3 && to[0] == 'h' && to[1] == 'k' && to[2] != 'e'
    && forall i :: 1 <= i < |to| ==> to[i] != 'h'
  }

  lemma HivesAreForeign(q: string, to: string)
    requires LongHive(q) && ShortHive(to)
    ensures Foreign(q, to)
  {
    forall j | 0 <= j < |q| ensures Clash(q[j..], to) {
      var k := if j == 0 then 2 else if q[j] == 'h' then 1 else 0;
      assert q[j..][k] == q[j + k] && q[j..][k] != to[k];
    }
    forall i | 0 <= i < |to| ensures Clash(q, to[i..]) {
      var k := if i == 0 then 2 else 0;
      assert to[i..][k] == to[i + k] && q[k] != to[i..][k];
    }
  }

  const LOCAL_MACHINE: string := "hkey_local_machine"
  const CURRENT_USER: string := "hkey_current_user"
  const CLASSES_ROOT: string := "hkey_classes_root"
  const USERS: string := "hkey_users"

  lemma HiveShapes()
    ensures LongHive(LOCAL_MACHINE) && LongHive(CURRENT_USER) && LongHive(CLASSES_ROOT) && LongHive(USERS)
    ensures ShortHive("hklm") && ShortHive("hkcu") && ShortHive("hkcr") && ShortHive("hku")
  {}

  /** The four chained replacements. */
  function ShortenHives(s: string): string {
    Replace(Replace(Replace(Replace(s, LOCAL_MACHINE, "hklm"), CURRENT_USER, "hkcu"), CLASSES_ROOT, "hkcr"), USERS, "hku")
  }

  predicate NoLongHive(s: string) {
    !Contains(s, LOCAL_MACHINE) && !Contains(s, CURRENT_USER) && !Contains(s, CLASSES_ROOT) && !Contains(s, USERS)
  }

  /** One replacement: its own pattern goes, and none of the others comes. */
  lemma ShortenOne(s: string, from: string, to: string, q: string)
    requires LongHive(from) && LongHive(q) && ShortHive(to) && (q == from || !Contains(s, q))
    ensures !Contains(Replace(s, from, to), q)
  {
    HivesAreForeign(q, to);
    ReplaceRemoves(s, from, to, q);
  }

  /** None of the long names is left, wherever in the key it was, and none has come about. */
  lemma ShortenedHasNoLongHive(s: string)
    ensures NoLongHive(ShortenHives(s))
  {
    HiveShapes();
    var a := Replace(s, LOCAL_MACHINE, "hklm");
    var b := Replace(a, CURRENT_USER, "hkcu");
    var c := Replace(b, CLASSES_ROOT, "hkcr");
    ShortenOne(s, LOCAL_MACHINE, "hklm", LOCAL_MACHINE);
    ShortenOne(a, CURRENT_USER, "hkcu", LOCAL_MACHINE);
    ShortenOne(a, CURRENT_USER, "hkcu", CURRENT_USER);
    ShortenOne(b, CLASSES_ROOT, "hkcr", LOCAL_MACHINE);
    ShortenOne(b, CLASSES_ROOT, "hkcr", CURRENT_USER);
    ShortenOne(b, CLASSES_ROOT, "hkcr", CLASSES_ROOT);
    ShortenOne(c, USERS, "hku", LOCAL_MACHINE);
    ShortenOne(c, USERS, "hku", CURRENT_USER);
    ShortenOne(c, USERS, "hku", CLASSES_ROOT);
    ShortenOne(c, USERS, "hku", USERS);
  }

  lemma ShortenNothing(s: string)
    requires NoLongHive(s)
    ensures ShortenHives(s) == s
  {
    ReplaceNothing(s, LOCAL_MACHINE, "hklm");
    ReplaceNothing(s, CURRENT_USER, "hkcu");
    ReplaceNothing(s, CLASSES_ROOT, "hkcr");
    ReplaceNothing(s, USERS, "hku");
  }

  // ----- what replacing and lowering keep -----

  lemma {:induction false} LenAppend(a: string, b: string)
    ensures Len(a + b) == Len(a) + Len(b)
  {
    if a == "" {
      assert a + b == b;
    } else {
      assert (a + b)[1..] == a[1..] + b;
      LenAppend(a[1..], b);
    }
  }

  predicate Plain(s: string) { Lowered(s) && NoControl(s) }

  /** Lower-case text without control characters stays so, */
  lemma {:induction false} ReplaceKeepsPlain(s: string, from: string, to: string)
    requires from != "" && Plain(s) && Plain(to)
    ensures Plain(Replace(s, from, to))
    decreases |s|
  {
    if s != "" {
      if from <= s { ReplaceKeepsPlain(s[|from|..], from, to); } else { ReplaceKeepsPlain(s[1..], from, to); }
    }
  }

  /** is no longer than before, */
  lemma {:induction false} ReplaceShortens(s: string, from: string, to: string)
    requires from != "" && Len(to) <= Len(from)
    ensures Len(Replace(s, from, to)) <= Len(s)
    decreases |s|
  {
    if s != "" {
      if from <= s {
        var rest := s[|from|..];
        assert s == from + rest;
        LenAppend(from, rest);
        LenAppend(to, Replace(rest, from, to));
        ReplaceShortens(rest, from, to);
      } else {
        ReplaceShortens(s[1..], from, to);
      }
    }
  }

  /** and ends as before, or as what was inserted. */
  lemma {:induction false} ReplaceLast(s: string, from: string, to: string)
    requires from != "" && to != "" && s != ""
    ensures var r := Replace(s, from, to); r != "" && (r[|r| - 1] == s[|s| - 1] || r[|r| - 1] == to[|to| - 1])
    decreases |s|
  {
    var rest := if from <= s then s[|from|..] else s[1..];
    var head := if from <= s then to else [s[0]];
    assert Replace(s, from, to) == head + Replace(rest, from, to);
    if rest != "" {
      ReplaceLast(rest, from, to);
      assert rest[|rest| - 1] == s[|s| - 1];
    } else {
      assert head + Replace(rest, from, to) == head;
    }
  }

  lemma {:induction false} LenAtLeast(s: string)
    ensures Len(s) >= |s|
  {
    if s != "" { LenAtLeast(s[1..]); }
  }

  lemma ThreeCharLen(a: char, b: char, c: char)
    requires a <= '\U{7F}' && b <= '\U{7F}' && c <= '\U{7F}'
    ensures Len([a, b, c]) == 3
  {
    assert [a, b, c][1..] == [b, c] && [b, c][1..] == [c] && [c][1..] == [];
    assert Len([c]) == 1;
    assert Len([b, c]) == 2;
  }

  lemma FourCharLen(a: char, b: char, c: char, d: char)
    requires a <= '\U{7F}' && b <= '\U{7F}' && c <= '\U{7F}' && d <= '\U{7F}'
    ensures Len([a, b, c, d]) == 4
  {
    assert [a, b, c, d][1..] == [b, c, d];
    ThreeCharLen(b, c, d);
  }

  lemma HivesAreShort()
    ensures Len("hklm") <= Len(LOCAL_MACHINE) && Len("hkcu") <= Len(CURRENT_USER)
    ensures Len("hkcr") <= Len(CLASSES_ROOT) && Len("hku") <= Len(USERS)
  {
    FourCharLen('h', 'k', 'l', 'm');
    FourCharLen('h', 'k', 'c', 'u');
    FourCharLen('h', 'k', 'c', 'r');
    ThreeCharLen('h', 'k', 'u');
    LenAtLeast(LOCAL_MACHINE);
    LenAtLeast(CURRENT_USER);
    LenAtLeast(CLASSES_ROOT);
    LenAtLeast(USERS);
  }

  predicate Solid(c: char) { !IsWhitespace(c) }

  /** Lower-case text that can stand in a normal form. */
  predicate Steady(s: string) {
    s != "" && Lowered(s) && NoControl(s) && Solid(s[|s| - 1])
  }

  lemma ReplaceSteady(s: string, from: string, to: string)
    requires from != "" && Len(to) <= Len(from) && Steady(s) && Steady(to)
    ensures Steady(Replace(s, from, to)) && Len(Replace(s, from, to)) <= Len(s)
  {
    ReplaceKeepsPlain(s, from, to);
    ReplaceShortens(s, from, to);
    ReplaceLast(s, from, to);
  }

  lemma HivesAreSteady()
    ensures Steady("hklm") && Steady("hkcu") && Steady("hkcr") && Steady("hku")
  {}

  lemma ShortenKeeps(s: string)
    requires Steady(s)
    ensures Steady(ShortenHives(s)) && Len(ShortenHives(s)) <= Len(s)
  {
    HivesAreShort();
    HivesAreSteady();
    var a := Replace(s, LOCAL_MACHINE, "hklm");
    var b := Replace(a, CURRENT_USER, "hkcu");
    var c := Replace(b, CLASSES_ROOT, "hkcr");
    ReplaceSteady(s, LOCAL_MACHINE, "hklm");
    ReplaceSteady(a, CURRENT_USER, "hkcu");
    ReplaceSteady(b, CLASSES_ROOT, "hkcr");
    ReplaceSteady(c, USERS, "hku");
  }

  lemma LowerIsLowered(s: string)
    ensures Lowered(Lower(s))
  {}

  lemma LoweredStays(s: string)
    requires Lowered(s)
    ensures Lower(s) == s
  {}

  lemma {:induction false} LowerLen(s: string)
    ensures Len(Lower(s)) == Len(s)
  {
    if s != "" {
      assert Lower(s)[1..] == Lower(s[1..]) && Lower(s)[0] == LowerChar(s[0]);
      LowerLen(s[1..]);
    }
  }

  lemma LowerChars(c: char)
    ensures IsControl(LowerChar(c)) <==> IsControl(c)
    ensures IsWhitespace(LowerChar(c)) <==> IsWhitespace(c)
  {}

  lemma LowerPresentable(s: string)
    requires Presentable(s)
    ensures Presentable(Lower(s))
  {
    LowerLen(s);
    LowerChars(s[0]);
    LowerChars(s[|s| - 1]);
    forall i | 0 <= i < |s| ensures !IsControl(Lower(s)[i]) { LowerChars(s[i]); }
  }

  // ----- domains -----

  /** What the program knows by heart, and how it recognises IP addresses. */
  datatype Rules = Rules(isIp: string -> bool, contextual: seq<string>, extensions: seq<string>, systemFiles: seq<string>)

  /** Whether a text is an IP address does not depend on the case of its letters. */
  ghost predicate CaseBlind(rules: Rules) {
    forall s :: rules.isIp(Lower(s)) <==> rules.isIp(s)
  }

  predicate LabelChar(c: char) { Alphanumeric(c) || c == '-' }

  predicate ValidLabel(s: string) {
    1 <= |s| <= 63 && s[0] != '-' && s[|s| - 1] != '-' && forall i :: 0 <= i < |s| ==> LabelChar(s[i])
  }

  predicate ValidTld(s: string, rules: Rules) {
    |s| >= 2 && (forall i :: 0 <= i < |s| ==> Alphabetic(s[i])) && Lower(s) !in rules.extensions
  }

  function WithoutDot(s: string): string {
    if s != "" && s[|s| - 1] == '.' then s[..|s| - 1] else s
  }

  /** `valid_domain` on a name without a final dot. */
  predicate ValidName(s: string, rules: Rules) {
    && Len(s) <= 253 && '.' in s && !rules.isIp(s)
    && var labels := Split(s, '.');
    && ValidTld(labels[|labels| - 1], rules)
    && forall i :: 0 <= i < |labels| ==> ValidLabel(labels[i])
  }

  predicate ValidDomain(s: string, rules: Rules) { ValidName(WithoutDot(s), rules) }

  function LowerAll(ss: seq<string>): (r: seq<string>)
    ensures |r| == |ss| && forall i :: 0 <= i < |ss| ==> r[i] == Lower(ss[i])
  {
    if ss == [] then [] else [Lower(ss[0])] + LowerAll(ss[1..])
  }

  lemma LowerCons(c: char, s: string)
    ensures Lower([c] + s) == [LowerChar(c)] + Lower(s)
  {
    assert ([c] + s)[1..] == s;
  }

  lemma {:induction false} SplitLower(s: string)
    ensures Split(Lower(s), '.') == LowerAll(Split(s, '.'))
  {
    if s != "" {
      SplitLower(s[1..]);
      LowerCons(s[0], s[1..]);
      assert s == [s[0]] + s[1..];
      var rest := Split(s[1..], '.');
      LowerCons(s[0], rest[0]);
    }
  }

  /** Every character of a text is a separator or in one of the parts. */
  lemma {:induction false} SplitChars(s: string, at: char, i: nat) returns (k: nat, j: nat)
    requires i < |s| && s[i] != at
    ensures k < |Split(s, at)| && j < |Split(s, at)[k]| && Split(s, at)[k][j] == s[i]
    decreases |s|
  {
    var rest := Split(s[1..], at);
    if i == 0 {
      k, j := 0, 0;
    } else {
      k, j := SplitChars(s[1..], at, i - 1);
      if s[0] == at { k := k + 1; } else if k == 0 { j := j + 1; }
    }
  }

  lemma {:induction false} SplitEnd(s: string, at: char)
    requires s != "" && s[|s| - 1] == at
    ensures Split(s, at)[|Split(s, at)| - 1] == ""
  {
    if |s| > 1 { SplitEnd(s[1..], at); }
  }

  lemma ValidNameChars(s: string, rules: Rules)
    requires ValidName(s, rules)
    ensures s != "" && s[|s| - 1] != '.'
    ensures forall i :: 0 <= i < |s| ==> s[i] == '.' || LabelChar(s[i])
  {
    forall i | 0 <= i < |s| && s[i] != '.' ensures LabelChar(s[i]) {
      var k, j := SplitChars(s, '.', i);
      assert ValidLabel(Split(s, '.')[k]);
    }
    var labels := Split(s, '.');
    assert ValidTld(labels[|labels| - 1], rules);
    if s[|s| - 1] == '.' { SplitEnd(s, '.'); }
  }

  lemma ValidLabelLower(s: string)
    requires ValidLabel(s)
    ensures ValidLabel(Lower(s))
  {
    forall i | 0 <= i < |s| ensures LabelChar(Lower(s)[i]) { assert LabelChar(s[i]); }
  }

  lemma ValidTldLower(s: string, rules: Rules)
    requires ValidTld(s, rules)
    ensures ValidTld(Lower(s), rules)
  {
    LowerIsLowered(s);
    LoweredStays(Lower(s));
    forall i | 0 <= i < |s| ensures Alphabetic(Lower(s)[i]) { assert Alphabetic(s[i]); }
  }

  lemma ValidNameLower(s: string, rules: Rules)
    requires CaseBlind(rules) && ValidName(s, rules)
    ensures ValidName(Lower(s), rules)
  {
    LowerLen(s);
    SplitLower(s);
    var labels := Split(s, '.');
    ValidTldLower(labels[|labels| - 1], rules);
    forall i | 0 <= i < |labels| ensures ValidLabel(Lower(labels[i])) { ValidLabelLower(labels[i]); }
    var i :| 0 <= i < |s| && s[i] == '.';
    assert Lower(s)[i] == '.';
  }

  predicate EndsWith(s: string, end: string) {
    |end| <= |s| && s[|s| - |end|..] == end
  }

  predicate ContextualDomain(s: string, rules: Rules) {
    var d := Lower(TrimEnd(s, '.'));
    exists i :: 0 <= i < |rules.contextual| && (d == rules.contextual[i] || EndsWith(d, "." + rules.contextual[i]))
  }

  lemma {:induction false} TrimEndLower(s: string)
    ensures TrimEnd(Lower(s), '.') == Lower(TrimEnd(s, '.'))
    decreases |s|
  {
    if s != "" && s[|s| - 1] == '.' {
      assert Lower(s)[..|s| - 1] == Lower(s[..|s| - 1]);
      TrimEndLower(s[..|s| - 1]);
    }
  }

  lemma TrimOneDot(s: string)
    requires WithoutDot(s) != "" && WithoutDot(s)[|WithoutDot(s)| - 1] != '.'
    ensures TrimEnd(s, '.') == WithoutDot(s)
  {}

  /** The canonical form of an accepted domain. */
  lemma DomainForm(s: string, rules: Rules)
    requires ValidDomain(s, rules)
    ensures TrimEnd(Lower(s), '.') == Lower(WithoutDot(s))
  {
    ValidNameChars(WithoutDot(s), rules);
    TrimOneDot(s);
    TrimEndLower(s);
  }

  // ----- e-mail addresses -----

  /** Where `rsplit_once` splits. */
  function LastIndex(s: string, c: char): Option<nat> {
    if s == "" then None
    else if s[|s| - 1] == c then Some(|s| - 1)
    else LastIndex(s[..|s| - 1], c)
  }

  lemma {:induction false} LastIndexIsLast(s: string, c: char)
    ensures LastIndex(s, c).Some? ==>
              && LastIndex(s, c).value < |s| && s[LastIndex(s, c).value] == c
              && forall i :: LastIndex(s, c).value < i < |s| ==> s[i] != c
  {
    if s != "" { LastIndexIsLast(s[..|s| - 1], c); }
  }

  lemma {:induction false} LastIndexOfSplit(a: string, c: char, b: string)
    requires forall i :: 0 <= i < |b| ==> b[i] != c
    ensures LastIndex(a + [c] + b, c) == Some(|a|)
    decreases |b|
  {
    var s := a + [c] + b;
    if b != "" {
      assert s[..|s| - 1] == a + [c] + b[..|b| - 1];
      LastIndexOfSplit(a, c, b[..|b| - 1]);
    }
  }

  const LOCAL_CHARS: string := ".!#$%&'*+-/=?^_`{|}~"

  predicate LocalChar(c: char) { Alphanumeric(c) || c in LOCAL_CHARS }

  predicate ValidLocal(s: string) {
    && 1 <= |s| <= 64 && s[0] != '.' && s[|s| - 1] != '.' && !Contains(s, "..")
    && forall i :: 0 <= i < |s| ==> LocalChar(s[i])
  }

  // ----- paths -----

  predicate DriveRooted(s: string) {
    |s| >= 3 && Alphabetic(s[0]) && s[1] == ':' && (s[2] == '\\' || s[2] == '/')
  }

  function PathForm(s: string): string { ReplaceChar(Lower(s), '/', '\\') }

  predicate ContextualPath(p: string) {
    "c:\\windows\\" <= p || "c:\\program files\\" <= p || EndsWith(p, "\\desktop.ini")
  }

  // ----- normalize -----

  /** `Named` stands for mutexes, services and scheduled tasks. */
  datatype Kind = Domain | Email | NamedPipe | Registry | FilePath | Filename | Named | UserAgent | CertificateSha256

  datatype Normal = Normal(text: string, contextual: bool)

  const PIPE: string := "\\\\.\\pipe\\"

  predicate IsHive(key: string) {
    "hklm\\" <= key || "hkcu\\" <= key || "hkcr\\" <= key || "hku\\" <= key
  }

  predicate IsHex(c: char) { '0' <= c <= '9' || 'a' <= c <= 'f' || 'A' <= c <= 'F' }

  function DomainOf(raw: string, rules: Rules): Option<Normal> {
    if !ValidDomain(raw, rules) then None
    else
      var d := TrimEnd(Lower(raw), '.');
      Some(Normal(d, ContextualDomain(d, rules)))
  }

  function EmailOf(raw: string, rules: Rules): Option<Normal> {
    LastIndexIsLast(raw, '@');
    match LastIndex(raw, '@')
    case None => None
    case Some(at) =>
      var local, domain := raw[..at], raw[at + 1..];
      if !ValidLocal(local) || !ValidDomain(domain, rules) then None
      else Some(Normal(local + ['@'] + Lower(domain), ContextualDomain(domain, rules)))
  }

  function PipeOf(raw: string): Option<Normal> {
    if !(PIPE <= Lower(raw)) || |raw| <= 9 || !HasNone(raw[9..], {':', '/', '\\'}) then None
    else Some(Normal(Lower(raw), false))
  }

  function RegistryOf(raw: string): Option<Normal> {
    var key := ShortenHives(Lower(raw));
    if !IsHive(key) || Len(key) > 1024 then None else Some(Normal(key, false))
  }

  function PathOf(raw: string): Option<Normal> {
    var p := PathForm(raw);
    if Len(raw) > 1024 || !DriveRooted(raw) || !HasNone(p[2..], {':', '*', '?', '"', '<', '>', '|'}) || ".." in Split(p, '\\')
    then None
    else Some(Normal(p, ContextualPath(p)))
  }

  function FilenameOf(raw: string, rules: Rules): Option<Normal> {
    if Len(raw) > 255 || !HasNone(raw, {'/', '\\', ':', '*', '?', '"', '<', '>', '|'}) || '.' !in raw then None
    else Some(Normal(Lower(raw), Lower(raw) in rules.systemFiles))
  }

  function NamedOf(raw: string): Option<Normal> {
    if Len(raw) > 256 || !HasNone(raw, {'\0', '"', '<', '>', '|'}) then None else Some(Normal(Lower(raw), false))
  }

  function CertificateOf(raw: string): Option<Normal> {
    if |raw| != 64 || exists i :: 0 <= i < |raw| && !IsHex(raw[i]) then None else Some(Normal(Lower(raw), false))
  }

  function Normalize(kind: Kind, value: string, rules: Rules): Option<Normal> {
    if !Presentable(value) then None
    else match kind
      case Domain => DomainOf(value, rules)
      case Email => EmailOf(value, rules)
      case NamedPipe => PipeOf(value)
      case Registry => RegistryOf(value)
      case FilePath => PathOf(value)
      case Filename => FilenameOf(value, rules)
      case Named => NamedOf(value)
      case UserAgent =>
        if Len(value) > 512 || '/' !in value || exists i :: 0 <= i < |value| && value[i] > '\U{7F}' then None
        else Some(Normal(value, "Mozilla/" <= value))
      case CertificateSha256 => CertificateOf(value)
  }

  // ----- canonical forms stay -----

  lemma DomainPresentable(d: string, rules: Rules)
    requires ValidName(d, rules)
    ensures Presentable(d)
  {
    ValidNameChars(d, rules);
    forall i | 0 <= i < |d| ensures !IsControl(d[i]) && Solid(d[i]) {
      assert d[i] == '.' || LabelChar(d[i]);
    }
  }

  lemma NameIsDomain(d: string, rules: Rules)
    requires ValidName(d, rules) && Lowered(d)
    ensures DomainOf(d, rules) == Some(Normal(d, ContextualDomain(d, rules)))
  {
    ValidNameChars(d, rules);
    assert WithoutDot(d) == d;
    DomainForm(d, rules);
    LoweredStays(d);
  }

  lemma DomainStays(raw: string, rules: Rules)
    requires CaseBlind(rules) && ValidDomain(raw, rules)
    ensures var n := DomainOf(raw, rules).value; Presentable(n.text) && DomainOf(n.text, rules) == Some(n)
  {
    var d := Lower(WithoutDot(raw));
    DomainForm(raw, rules);
    ValidNameLower(WithoutDot(raw), rules);
    LowerIsLowered(WithoutDot(raw));
    DomainPresentable(d, rules);
    NameIsDomain(d, rules);
  }

  lemma NameHasNoAt(name: string, rules: Rules)
    requires ValidName(name, rules)
    ensures '@' !in name
  {
    ValidNameChars(name, rules);
    assert !LabelChar('@');
  }

  lemma OnlyADotMore(s: string)
    ensures '@' in s <==> '@' in WithoutDot(s)
  {
    if s != "" && s[|s| - 1] == '.' { assert s == s[..|s| - 1] + ['.']; }
  }

  lemma DomainHasNoAt(domain: string, rules: Rules)
    requires ValidDomain(domain, rules)
    ensures '@' !in domain
  {
    NameHasNoAt(WithoutDot(domain), rules);
    OnlyADotMore(domain);
  }

  lemma EmailParts(local: string, domain: string, rules: Rules)
    requires ValidDomain(domain, rules) && ValidLocal(local)
    ensures EmailOf(local + ['@'] + domain, rules) == Some(Normal(local + ['@'] + Lower(domain), ContextualDomain(domain, rules)))
  {
    DomainHasNoAt(domain, rules);
    LastIndexOfSplit(local, '@', domain);
    var s := local + ['@'] + domain;
    assert s[..|local|] == local && s[|local| + 1..] == domain;
  }

  lemma WithoutDotLower(s: string)
    ensures WithoutDot(Lower(s)) == Lower(WithoutDot(s))
  {
    if s != "" && s[|s| - 1] == '.' {
      assert Lower(s)[..|s| - 1] == Lower(s[..|s| - 1]);
    }
  }

  lemma DomainLower(domain: string, rules: Rules)
    requires CaseBlind(rules) && ValidDomain(domain, rules)
    ensures ValidDomain(Lower(domain), rules)
  {
    WithoutDotLower(domain);
    ValidNameLower(WithoutDot(domain), rules);
  }

  lemma ContextualLower(s: string, rules: Rules)
    ensures ContextualDomain(Lower(s), rules) == ContextualDomain(s, rules)
  {
    TrimEndLower(s);
    LowerTwice(TrimEnd(s, '.'));
  }

  lemma JoinAt(s: string, at: nat)
    requires at < |s|
    ensures s == s[..at] + [s[at]] + s[at + 1..]
  {}

  lemma DomainIsSome(domain: string, rules: Rules)
    requires ValidDomain(domain, rules)
    ensures domain != ""
  {
    ValidNameChars(WithoutDot(domain), rules);
  }

  lemma EmailForm(raw: string, rules: Rules) returns (local: string, domain: string)
    requires EmailOf(raw, rules).Some?
    ensures raw == local + ['@'] + domain && ValidLocal(local) && ValidDomain(domain, rules)
    ensures EmailOf(raw, rules) == Some(Normal(local + ['@'] + Lower(domain), ContextualDomain(domain, rules)))
  {
    LastIndexIsLast(raw, '@');
    var at := LastIndex(raw, '@').value;
    local, domain := raw[..at], raw[at + 1..];
    JoinAt(raw, at);
  }

  lemma EmailStays(raw: string, rules: Rules)
    requires CaseBlind(rules) && Presentable(raw) && EmailOf(raw, rules).Some?
    ensures var n := EmailOf(raw, rules).value; Presentable(n.text) && EmailOf(n.text, rules) == Some(n)
  {
    var local, domain := EmailForm(raw, rules);
    DomainIsSome(domain, rules);
    DomainLower(domain, rules);
    ContextualLower(domain, rules);
    EmailParts(local, Lower(domain), rules);
    LowerTwice(domain);
    EmailPresentable(raw, local, domain);
  }

  lemma LowerTwice(s: string)
    ensures Lower(Lower(s)) == Lower(s)
  {
    LowerIsLowered(s);
    LoweredStays(Lower(s));
  }

  lemma EmailPresentable(raw: string, local: string, domain: string)
    requires Presentable(raw) && raw == local + ['@'] + domain && local != "" && domain != ""
    ensures Presentable(local + ['@'] + Lower(domain))
  {
    var n := local + ['@'] + Lower(domain);
    LenAppend(local + ['@'], domain);
    LenAppend(local + ['@'], Lower(domain));
    LowerLen(domain);
    forall i | 0 <= i < |n| ensures !IsControl(n[i]) && (Solid(n[i]) <==> Solid(raw[i])) {
      if i <= |local| { assert n[i] == raw[i]; } else { assert n[i] == LowerChar(raw[i]); }
    }
  }

  lemma PipeStays(raw: string)
    requires Presentable(raw) && PipeOf(raw).Some?
    ensures var n := PipeOf(raw).value; Presentable(n.text) && PipeOf(n.text) == Some(n)
  {
    LowerPresentable(raw);
    LowerIsLowered(raw);
    LoweredStays(Lower(raw));
    forall i | 0 <= i < |raw[9..]| ensures Lower(raw)[9..][i] !in {':', '/', '\\'} {
      assert Lower(raw)[9..][i] == LowerChar(raw[9..][i]);
    }
  }

  lemma RegistryStays(raw: string)
    requires Presentable(raw) && RegistryOf(raw).Some?
    ensures var n := RegistryOf(raw).value; Presentable(n.text) && RegistryOf(n.text) == Some(n) && NoLongHive(n.text)
  {
    var key := ShortenHives(Lower(raw));
    LowerPresentable(raw);
    LowerIsLowered(raw);
    ShortenKeeps(Lower(raw));
    ShortenedHasNoLongHive(Lower(raw));
    LoweredStays(key);
    ShortenNothing(key);
    assert key[0] == 'h';
  }

  lemma {:induction false} SlashLen(s: string)
    ensures Len(ReplaceChar(s, '/', '\\')) == Len(s)
  {
    if s != "" {
      assert ReplaceChar(s, '/', '\\')[1..] == ReplaceChar(s[1..], '/', '\\');
      SlashLen(s[1..]);
    }
  }

  lemma PathFormStays(raw: string)
    ensures PathForm(PathForm(raw)) == PathForm(raw) && Len(PathForm(raw)) == Len(raw)
  {
    var p := PathForm(raw);
    LowerLen(raw);
    SlashLen(Lower(raw));
    assert Lowered(p);
    LoweredStays(p);
    assert ReplaceChar(p, '/', '\\') == p;
  }

  lemma PathFormPresentable(raw: string)
    requires Presentable(raw)
    ensures Presentable(PathForm(raw))
  {
    PathFormStays(raw);
    LowerPresentable(raw);
    var low := Lower(raw);
    forall i | 0 <= i < |low| ensures !IsControl(PathForm(raw)[i]) && (Solid(PathForm(raw)[i]) <==> Solid(low[i])) {}
  }

  lemma PathStays(raw: string)
    requires Presentable(raw) && PathOf(raw).Some?
    ensures var n := PathOf(raw).value; Presentable(n.text) && PathOf(n.text) == Some(n)
  {
    PathFormStays(raw);
    PathFormPresentable(raw);
    RootStays(raw);
  }

  lemma RootStays(raw: string)
    requires DriveRooted(raw)
    ensures DriveRooted(PathForm(raw))
  {
    var p := PathForm(raw);
    assert p[0] == LowerChar(raw[0]) && p[1] == ':' && p[2] == '\\';
  }

  lemma LowerHasNone(s: string, chars: set<char>)
    requires HasNone(s, chars) && forall c :: c in chars ==> !('a' <= c <= 'z')
    ensures HasNone(Lower(s), chars)
  {}

  lemma LowerKeeps(s: string, c: char)
    requires c in s && LowerChar(c) == c
    ensures c in Lower(s)
  {
    var i :| 0 <= i < |s| && s[i] == c;
    assert Lower(s)[i] == c;
  }

  lemma FilenameStays(raw: string, rules: Rules)
    requires Presentable(raw) && FilenameOf(raw, rules).Some?
    ensures var n := FilenameOf(raw, rules).value; Presentable(n.text) && FilenameOf(n.text, rules) == Some(n)
  {
    LowerPresentable(raw);
    LowerLen(raw);
    LowerIsLowered(raw);
    LoweredStays(Lower(raw));
    LowerHasNone(raw, {'/', '\\', ':', '*', '?', '"', '<', '>', '|'});
    LowerKeeps(raw, '.');
  }

  /** `normalize` is a canonicalisation: its output is accepted, and is its own normal form. */
  lemma NormalizeIsIdempotent(kind: Kind, value: string, rules: Rules)
    requires CaseBlind(rules) && Normalize(kind, value, rules).Some?
    ensures Normalize(kind, Normalize(kind, value, rules).value.text, rules) == Normalize(kind, value, rules)
  {
    match kind {
      case Domain => DomainStays(value, rules);
      case Email => EmailStays(value, rules);
      case NamedPipe => PipeStays(value);
      case Registry => RegistryStays(value);
      case FilePath => PathStays(value);
      case Filename => FilenameStays(value, rules);
      case UserAgent =>
      case Named =>
        LowerPresentable(value);
        NamedStays(value);
      case CertificateSha256 =>
        LowerPresentable(value);
        CertificateStays(value);
    }
  }

  lemma NamedStays(value: string)
    requires NamedOf(value).Some?
    ensures NamedOf(Lower(value)) == NamedOf(value)
  {
    LowerLen(value);
    LowerIsLowered(value);
    LoweredStays(Lower(value));
  }

  lemma CertificateStays(value: string)
    requires CertificateOf(value).Some?
    ensures CertificateOf(Lower(value)) == CertificateOf(value)
  {
    LowerIsLowered(value);
    LoweredStays(Lower(value));
    forall i | 0 <= i < |value| ensures IsHex(Lower(value)[i]) { assert IsHex(value[i]); }
  }
}
