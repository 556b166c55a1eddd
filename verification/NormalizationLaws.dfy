/**
 What the normal forms of `Normalization` mean: which names the short hives stand for, that letters
 may be in either case, and how a domain is spelled.
 */
module NormalizationLaws {
  import opened Basics
  import opened Text
  import opened Normalization

  // ----- registry hives -----

  /** No occurrence of `q` begins in `p`, whatever comes behind. */
  predicate Apart(p: string, q: string) {
    forall i :: 0 <= i < |p| ==> Clash(p[i..], q)
  }

  lemma ApartIsNoPrefix(p: string, rest: string, q: string)
    requires p != "" && Apart(p, q)
    ensures !(q <= p + rest) && Apart(p[1..], q)
  {
    assert p[0..] == p;
    var k :| 0 <= k < |p| && k < |q| && p[k] != q[k];
    assert (p + rest)[k] == p[k];
    forall i | 0 <= i < |p[1..]| ensures Clash(p[1..][i..], q) {
      assert p[1..][i..] == p[i + 1..];
    }
  }

  lemma {:induction false} ReplaceSkips(p: string, rest: string, from: string, to: string)
    requires from != "" && Apart(p, from)
    ensures Replace(p + rest, from, to) == p + Replace(rest, from, to)
  {
    if p == "" {
      assert "" + rest == rest;
    } else {
      ApartIsNoPrefix(p, rest, from);
      assert (p + rest)[1..] == p[1..] + rest;
      ReplaceSkips(p[1..], rest, from, to);
    }
  }

  lemma ReplaceFirst(rest: string, from: string, to: string)
    requires from != ""
    ensures Replace(from + rest, from, to) == to + Replace(rest, from, to)
  {
    assert (from + rest)[|from|..] == rest;
  }

  lemma ShortIsApart(to: string, q: string)
    requires ShortHive(to) && LongHive(q)
    ensures Apart(to, q)
  {
    forall i | 0 <= i < |to| ensures Clash(to[i..], q) {
      var k := if i == 0 then 2 else 0;
      assert to[i..][k] == to[i + k] && to[i..][k] != q[k];
    }
  }

  lemma LongIsApart(p: string, q: string)
    requires LongHive(p) && LongHive(q) && Clash(p, q)
    ensures Apart(p, q)
  {
    forall i | 0 <= i < |p| ensures Clash(p[i..], q) {
      if i == 0 {
        assert p[0..] == p;
      } else {
        var k := if p[i] == 'h' then 1 else 0;
        assert p[i..][k] == p[i + k] && p[i..][k] != q[k];
      }
    }
  }

  lemma LongHivesClash()
    ensures Clash(CURRENT_USER, LOCAL_MACHINE) && Clash(CLASSES_ROOT, LOCAL_MACHINE) && Clash(USERS, LOCAL_MACHINE)
    ensures Clash(CLASSES_ROOT, CURRENT_USER) && Clash(USERS, CURRENT_USER) && Clash(USERS, CLASSES_ROOT)
  {
    assert CURRENT_USER[5] != LOCAL_MACHINE[5] && CLASSES_ROOT[5] != LOCAL_MACHINE[5] && USERS[5] != LOCAL_MACHINE[5];
    assert CLASSES_ROOT[6] != CURRENT_USER[6] && USERS[5] != CURRENT_USER[5] && USERS[5] != CLASSES_ROOT[5];
  }

  lemma SkipsShort(to: string, rest: string, from: string, short: string)
    requires ShortHive(to) && LongHive(from)
    ensures Replace(to + rest, from, short) == to + Replace(rest, from, short)
  {
    ShortIsApart(to, from);
    ReplaceSkips(to, rest, from, short);
  }

  lemma SkipsLong(p: string, rest: string, from: string, short: string)
    requires LongHive(p) && LongHive(from) && Clash(p, from)
    ensures Replace(p + rest, from, short) == p + Replace(rest, from, short)
  {
    LongIsApart(p, from);
    ReplaceSkips(p, rest, from, short);
  }

  /** Which short name stands for which long one, and that the rest of the key is shortened by itself. */
  lemma LocalMachineIsHklm(rest: string)
    ensures ShortenHives("hkey_local_machine" + rest) == "hklm" + ShortenHives(rest)
  {
    HiveShapes();
    var a := Replace(rest, LOCAL_MACHINE, "hklm");
    var b := Replace(a, CURRENT_USER, "hkcu");
    ReplaceFirst(rest, LOCAL_MACHINE, "hklm");
    SkipsShort("hklm", a, CURRENT_USER, "hkcu");
    SkipsShort("hklm", b, CLASSES_ROOT, "hkcr");
    SkipsShort("hklm", Replace(b, CLASSES_ROOT, "hkcr"), USERS, "hku");
  }

  lemma CurrentUserIsHkcu(rest: string)
    ensures ShortenHives("hkey_current_user" + rest) == "hkcu" + ShortenHives(rest)
  {
    HiveShapes();
    LongHivesClash();
    var a := Replace(rest, LOCAL_MACHINE, "hklm");
    var b := Replace(a, CURRENT_USER, "hkcu");
    SkipsLong(CURRENT_USER, rest, LOCAL_MACHINE, "hklm");
    ReplaceFirst(a, CURRENT_USER, "hkcu");
    SkipsShort("hkcu", b, CLASSES_ROOT, "hkcr");
    SkipsShort("hkcu", Replace(b, CLASSES_ROOT, "hkcr"), USERS, "hku");
  }

  lemma ClassesRootIsHkcr(rest: string)
    ensures ShortenHives("hkey_classes_root" + rest) == "hkcr" + ShortenHives(rest)
  {
    HiveShapes();
    LongHivesClash();
    var a := Replace(rest, LOCAL_MACHINE, "hklm");
    var b := Replace(a, CURRENT_USER, "hkcu");
    SkipsLong(CLASSES_ROOT, rest, LOCAL_MACHINE, "hklm");
    SkipsLong(CLASSES_ROOT, a, CURRENT_USER, "hkcu");
    ReplaceFirst(b, CLASSES_ROOT, "hkcr");
    SkipsShort("hkcr", Replace(b, CLASSES_ROOT, "hkcr"), USERS, "hku");
  }

  lemma UsersIsHku(rest: string)
    ensures ShortenHives("hkey_users" + rest) == "hku" + ShortenHives(rest)
  {
    HiveShapes();
    LongHivesClash();
    var a := Replace(rest, LOCAL_MACHINE, "hklm");
    var b := Replace(a, CURRENT_USER, "hkcu");
    SkipsLong(USERS, rest, LOCAL_MACHINE, "hklm");
    SkipsLong(USERS, a, CURRENT_USER, "hkcu");
    SkipsLong(USERS, b, CLASSES_ROOT, "hkcr");
    ReplaceFirst(Replace(b, CLASSES_ROOT, "hkcr"), USERS, "hku");
  }

  // ----- letters in either case -----

  lemma LowerTwice(s: string)
    ensures Lower(Lower(s)) == Lower(s)
  {
    LowerIsLowered(s);
    LoweredStays(Lower(s));
  }

  lemma PresentableInEitherCase(s: string)
    ensures Presentable(Lower(s)) <==> Presentable(s)
  {
    LowerLen(s);
    forall i | 0 <= i < |s|
      ensures IsControl(Lower(s)[i]) <==> IsControl(s[i])
      ensures IsWhitespace(Lower(s)[i]) <==> IsWhitespace(s[i])
    {
      LowerChars(s[i]);
    }
  }

  predicate NoLetters(chars: set<char>) {
    forall c :: c in chars ==> !Alphabetic(c)
  }

  lemma HasNoneInEitherCase(s: string, chars: set<char>)
    requires NoLetters(chars)
    ensures HasNone(Lower(s), chars) <==> HasNone(s, chars)
  {
    forall i | 0 <= i < |s| ensures Lower(s)[i] in chars <==> s[i] in chars { LetterOrSame(s[i]); }
  }

  lemma LetterOrSame(c: char)
    ensures LowerChar(c) == c || (Alphabetic(c) && Alphabetic(LowerChar(c)))
    ensures Alphabetic(LowerChar(c)) <==> Alphabetic(c)
    ensures IsHex(LowerChar(c)) <==> IsHex(c)
  {}

  lemma HasCharInEitherCase(s: string, c: char)
    requires !Alphabetic(c)
    ensures c in Lower(s) <==> c in s
  {
    if i :| 0 <= i < |s| && Lower(s)[i] == c { LetterOrSame(s[i]); }
    if i :| 0 <= i < |s| && s[i] == c { LetterOrSame(s[i]); assert Lower(s)[i] == c; }
  }

  lemma LabelInEitherCase(s: string)
    ensures ValidLabel(Lower(s)) <==> ValidLabel(s)
  {
    forall i | 0 <= i < |s|
      ensures LabelChar(Lower(s)[i]) <==> LabelChar(s[i])
      ensures Lower(s)[i] == '-' <==> s[i] == '-'
    {
      LetterOrSame(s[i]);
    }
  }

  lemma TldInEitherCase(s: string, rules: Rules)
    ensures ValidTld(Lower(s), rules) <==> ValidTld(s, rules)
  {
    LowerTwice(s);
    forall i | 0 <= i < |s| ensures Alphabetic(Lower(s)[i]) <==> Alphabetic(s[i]) { LetterOrSame(s[i]); }
  }

  predicate AllLabels(labels: seq<string>) {
    forall i :: 0 <= i < |labels| ==> ValidLabel(labels[i])
  }

  lemma LabelsInEitherCase(labels: seq<string>)
    ensures AllLabels(LowerAll(labels)) <==> AllLabels(labels)
  {
    forall i | 0 <= i < |labels| ensures ValidLabel(LowerAll(labels)[i]) <==> ValidLabel(labels[i]) {
      LabelInEitherCase(labels[i]);
    }
  }

  lemma ValidNameOf(s: string, rules: Rules)
    ensures ValidName(s, rules) <==>
              && Len(s) <= 253 && '.' in s && !rules.isIp(s)
              && ValidTld(Split(s, '.')[|Split(s, '.')| - 1], rules) && AllLabels(Split(s, '.'))
  {}

  lemma NameInEitherCase(s: string, rules: Rules)
    requires CaseBlind(rules)
    ensures ValidName(Lower(s), rules) <==> ValidName(s, rules)
  {
    LowerLen(s);
    SplitLower(s);
    HasCharInEitherCase(s, '.');
    var labels := Split(s, '.');
    TldInEitherCase(labels[|labels| - 1], rules);
    LabelsInEitherCase(labels);
    ValidNameOf(s, rules);
    ValidNameOf(Lower(s), rules);
  }

  lemma DomainInEitherCase(s: string, rules: Rules)
    requires CaseBlind(rules)
    ensures DomainOf(Lower(s), rules) == DomainOf(s, rules)
  {
    ValidDomainInEitherCase(s, rules);
    LowerTwice(s);
  }

  lemma PipeInEitherCase(s: string)
    ensures PipeOf(Lower(s)) == PipeOf(s)
  {
    LowerTwice(s);
    if |s| > 9 {
      assert Lower(s)[9..] == Lower(s[9..]);
      HasNoneInEitherCase(s[9..], {':', '/', '\\'});
    }
  }

  lemma PathInEitherCase(s: string)
    ensures PathOf(Lower(s)) == PathOf(s)
  {
    LowerTwice(s);
    LowerLen(s);
    if |s| >= 3 {
      LetterOrSame(s[0]);
      LetterOrSame(s[1]);
      LetterOrSame(s[2]);
    }
  }

  lemma FilenameInEitherCase(s: string, rules: Rules)
    ensures FilenameOf(Lower(s), rules) == FilenameOf(s, rules)
  {
    LowerTwice(s);
    LowerLen(s);
    HasNoneInEitherCase(s, {'/', '\\', ':', '*', '?', '"', '<', '>', '|'});
    HasCharInEitherCase(s, '.');
  }

  lemma HexInEitherCase(s: string)
    ensures (exists i :: 0 <= i < |s| && !IsHex(Lower(s)[i])) <==> exists i :: 0 <= i < |s| && !IsHex(s[i])
  {
    forall i | 0 <= i < |s| ensures IsHex(Lower(s)[i]) <==> IsHex(s[i]) { LetterOrSame(s[i]); }
  }

  /**
   Upper and lower case make no difference to what is accepted or to the normal form, for all kinds
   but the user agent and the local part of an address.
   */
  lemma NormalInEitherCase(kind: Kind, s: string, rules: Rules)
    requires CaseBlind(rules) && kind !in {Email, UserAgent}
    ensures Normalize(kind, Lower(s), rules) == Normalize(kind, s, rules)
  {
    PresentableInEitherCase(s);
    LowerTwice(s);
    match kind {
      case Domain => DomainInEitherCase(s, rules);
      case NamedPipe => PipeInEitherCase(s);
      case Registry =>
      case FilePath => PathInEitherCase(s);
      case Filename => FilenameInEitherCase(s, rules);
      case Named =>
        LowerLen(s);
        HasNoneInEitherCase(s, {'\0', '"', '<', '>', '|'});
      case CertificateSha256 => HexInEitherCase(s);
    }
  }

  /** Of two texts that differ in the case of letters only, either both are refused or both have one normal form. */
  lemma SameUpToCase(kind: Kind, s: string, t: string, rules: Rules)
    requires CaseBlind(rules) && kind !in {Email, UserAgent} && Lower(s) == Lower(t)
    ensures Normalize(kind, s, rules) == Normalize(kind, t, rules)
  {
    NormalInEitherCase(kind, s, rules);
    NormalInEitherCase(kind, t, rules);
  }

  lemma {:induction false} SlashLen(s: string)
    ensures Len(ReplaceChar(s, '/', '\\')) == Len(s)
  {
    if s != "" {
      var t := ReplaceChar(s, '/', '\\');
      assert t[1..] == ReplaceChar(s[1..], '/', '\\');
      SlashLen(s[1..]);
    }
  }

  /** Nor does the direction of the slashes in a path. */
  lemma PathWithEitherSlash(s: string)
    ensures PathOf(ReplaceChar(s, '/', '\\')) == PathOf(s)
  {
    SlashLen(s);
    var t := ReplaceChar(s, '/', '\\');
    assert PathForm(t) == PathForm(s) by {
      assert forall i :: 0 <= i < |s| ==> PathForm(t)[i] == PathForm(s)[i];
    }
  }

  /** What an address comes to that is cut in two. */
  function Addressed(local: string, domain: string, rules: Rules): Option<Normal> {
    if !ValidLocal(local) || !ValidDomain(domain, rules) then None
    else Some(Normal(local + ['@'] + Lower(domain), ContextualDomain(domain, rules)))
  }

  lemma AddressIsCut(local: string, domain: string, rules: Rules)
    requires '@' !in domain
    ensures EmailOf(local + ['@'] + domain, rules) == Addressed(local, domain, rules)
  {
    var s := local + ['@'] + domain;
    LastIndexOfSplit(local, '@', domain);
    assert s[..|local|] == local && s[|local| + 1..] == domain;
  }

  lemma ContextInEitherCase(s: string, rules: Rules)
    ensures ContextualDomain(Lower(s), rules) <==> ContextualDomain(s, rules)
  {
    TrimEndLower(s);
    LowerTwice(TrimEnd(s, '.'));
  }

  lemma WithoutDotInEitherCase(s: string)
    ensures WithoutDot(Lower(s)) == Lower(WithoutDot(s))
  {
    if s != "" { LetterOrSame(s[|s| - 1]); }
  }

  lemma ValidDomainInEitherCase(s: string, rules: Rules)
    requires CaseBlind(rules)
    ensures ValidDomain(Lower(s), rules) <==> ValidDomain(s, rules)
  {
    WithoutDotInEitherCase(s);
    NameInEitherCase(WithoutDot(s), rules);
  }

  /** The same for the domain of an address. */
  lemma AddressInEitherCase(local: string, domain: string, rules: Rules)
    requires CaseBlind(rules) && '@' !in domain
    ensures EmailOf(local + ['@'] + Lower(domain), rules) == EmailOf(local + ['@'] + domain, rules)
  {
    HasCharInEitherCase(domain, '@');
    AddressIsCut(local, domain, rules);
    AddressIsCut(local, Lower(domain), rules);
    ValidDomainInEitherCase(domain, rules);
    ContextInEitherCase(domain, rules);
    LowerTwice(domain);
  }

  // ----- how a domain is spelled -----

  /** Two or more labels between dots, the last one a top-level domain of letters only. */
  ghost predicate IsDomainName(s: string, labels: seq<string>, rules: Rules) {
    && |labels| >= 2 && s == JoinWith(labels, '.') && Len(s) <= 253 && !rules.isIp(s)
    && (forall l :: l in labels ==> IsLabel(l))
    && var tld := labels[|labels| - 1];
       |tld| >= 2 && (forall c :: c in tld ==> Alphabetic(c)) && Lower(tld) !in rules.extensions
  }

  predicate IsLabel(l: string) {
    && 1 <= |l| <= 63 && l[0] != '-' && l[|l| - 1] != '-'
    && forall c :: c in l ==> Alphabetic(c) || '0' <= c <= '9' || c == '-'
  }

  lemma LabelIsValid(l: string)
    ensures IsLabel(l) <==> ValidLabel(l)
  {
    if ValidLabel(l) {
      forall c | c in l ensures Alphabetic(c) || '0' <= c <= '9' || c == '-' {
        var i :| 0 <= i < |l| && l[i] == c;
        assert LabelChar(l[i]);
      }
    }
    if IsLabel(l) {
      forall i | 0 <= i < |l| ensures LabelChar(l[i]) { assert l[i] in l; }
    }
  }

  lemma {:induction false} DotsBetween(labels: seq<string>)
    requires |labels| >= 2
    ensures '.' in JoinWith(labels, '.')
  {}

  lemma {:induction false} OneIsWithoutDot(s: string)
    requires '.' in s
    ensures |Split(s, '.')| >= 2
  {
    if s[0] != '.' { OneIsWithoutDot(s[1..]); }
  }

  /** The names that are accepted are exactly those spelled so. */
  lemma ValidNameIsSpelled(s: string, rules: Rules)
    ensures ValidName(s, rules) <==> exists labels :: IsDomainName(s, labels, rules)
  {
    if ValidName(s, rules) {
      var labels := Split(s, '.');
      JoinedSplit(s, '.');
      OneIsWithoutDot(s);
      SplitIsName(s, labels, rules);
    }
    if labels :| IsDomainName(s, labels, rules) {
      NameIsSplit(s, labels, rules);
    }
  }

  lemma SplitIsName(s: string, labels: seq<string>, rules: Rules)
    requires ValidName(s, rules) && labels == Split(s, '.') && |labels| >= 2 && JoinWith(labels, '.') == s
    ensures IsDomainName(s, labels, rules)
  {
    forall l | l in labels ensures IsLabel(l) {
      var i :| 0 <= i < |labels| && labels[i] == l;
      LabelIsValid(labels[i]);
    }
  }

  lemma NameIsSplit(s: string, labels: seq<string>, rules: Rules)
    requires IsDomainName(s, labels, rules)
    ensures ValidName(s, rules)
  {
    forall l | l in labels ensures '.' !in l && ValidLabel(l) { LabelIsValid(l); }
    SplitJoined(labels, '.');
    DotsBetween(labels);
    var tld := labels[|labels| - 1];
    forall i | 0 <= i < |tld| ensures Alphabetic(tld[i]) { assert tld[i] in tld; }
  }

  // ----- what is accepted, kind by kind -----

  /** How many bits a UTF-8 sequence of so many bytes has room for. */
  function Room(bytes: nat): nat {
    if bytes == 1 then 7 else if bytes == 2 then 11 else if bytes == 3 then 16 else if bytes == 4 then 21 else 0
  }

  function PowerOfTwo(n: nat): nat { if n == 0 then 1 else 2 * PowerOfTwo(n - 1) }

  /** A character takes the fewest bytes in which its code fits. */
  lemma CharLenIsFewest(c: char)
    ensures 1 <= CharLen(c) <= 4 && c as int < PowerOfTwo(Room(CharLen(c)))
    ensures CharLen(c) > 1 ==> c as int >= PowerOfTwo(Room(CharLen(c) - 1))
  {
    assert PowerOfTwo(7) == 0x80 && PowerOfTwo(11) == 0x800 && PowerOfTwo(16) == 0x1_0000 && PowerOfTwo(21) == 0x20_0000;
  }

  /** The part of an address in front of the `@`. */
  predicate IsLocalPart(l: string) {
    && 1 <= |l| <= 64 && l[0] != '.' && l[|l| - 1] != '.'
    && (forall i :: 0 <= i < |l| - 1 && l[i] == '.' ==> l[i + 1] != '.')
    && forall c :: c in l ==>
         || Alphabetic(c) || '0' <= c <= '9'
         || c in {'.', '!', '#', '$', '%', '&', '\'', '*', '+', '-', '/', '=', '?', '^', '_', '`', '{', '|', '}', '~'}
  }

  lemma LocalCharExactly(c: char)
    ensures LocalChar(c) <==>
              || Alphabetic(c) || '0' <= c <= '9'
              || c in {'.', '!', '#', '$', '%', '&', '\'', '*', '+', '-', '/', '=', '?', '^', '_', '`', '{', '|', '}', '~'}
  {}

  lemma NoTwoDots(l: string)
    ensures Contains(l, "..") <==> exists i :: 0 <= i < |l| - 1 && l[i] == '.' && l[i + 1] == '.'
  {
    if i :| 0 <= i <= |l| && OccursAt(l, "..", i) {
      assert l[i..][0] == '.' && l[i..][1] == '.';
      assert l[i] == '.' && l[i + 1] == '.';
    }
    if i :| 0 <= i < |l| - 1 && l[i] == '.' && l[i + 1] == '.' {
      assert l[i..] == ".." + l[i + 2..];
      assert OccursAt(l, "..", i);
    }
  }

  lemma LocalPartExactly(l: string)
    ensures ValidLocal(l) <==> IsLocalPart(l)
  {
    NoTwoDots(l);
    forall i | 0 <= i < |l| ensures l[i] in l { LocalCharExactly(l[i]); }
    if ValidLocal(l) {
      forall c | c in l ensures LocalChar(c) {
        var i :| 0 <= i < |l| && l[i] == c;
      }
    }
    forall c ensures LocalChar(c) <==> LocalChar(c) { LocalCharExactly(c); }
  }

  /** The name has this spelling, with or without a dot at the end. */
  ghost predicate SpellsDomain(s: string, name: string, rules: Rules) {
    (s == name || s == name + ".") && exists labels :: IsDomainName(name, labels, rules)
  }

  /** It is one of the names that only give context, or below one. */
  predicate GivesContext(d: string, rules: Rules) {
    exists i :: 0 <= i < |rules.contextual| && Under(d, rules.contextual[i])
  }

  predicate Under(d: string, zone: string) {
    d == zone || (|d| > |zone| && d[|d| - |zone|..] == zone && d[|d| - |zone| - 1] == '.')
  }

  lemma UnderExactly(d: string, zone: string)
    ensures Under(d, zone) <==> d == zone || EndsWith(d, "." + zone)
  {
    if |d| > |zone| {
      assert d[|d| - |zone| - 1..] == [d[|d| - |zone| - 1]] + d[|d| - |zone|..];
      assert ("." + zone)[1..] == zone;
    }
  }

  lemma ContextExactly(s: string, rules: Rules)
    ensures ContextualDomain(s, rules) <==> GivesContext(Lower(TrimEnd(s, '.')), rules)
  {
    var d := Lower(TrimEnd(s, '.'));
    forall i | 0 <= i < |rules.contextual|
      ensures Under(d, rules.contextual[i]) <==> d == rules.contextual[i] || EndsWith(d, "." + rules.contextual[i])
    {
      UnderExactly(d, rules.contextual[i]);
    }
  }

  lemma NameEndsInLetter(name: string, rules: Rules)
    requires ValidName(name, rules)
    ensures WithoutDot(name) == name && WithoutDot(name + ".") == name
  {
    ValidNameChars(name, rules);
    assert (name + ".")[..|name|] == name;
  }

  lemma DomainExactly(s: string, rules: Rules)
    ensures ValidDomain(s, rules) <==> exists name :: SpellsDomain(s, name, rules)
    ensures forall name :: SpellsDomain(s, name, rules) ==> WithoutDot(s) == name && ValidName(name, rules)
  {
    if ValidDomain(s, rules) {
      var name := WithoutDot(s);
      ValidNameIsSpelled(name, rules);
      assert s == name || s == name + ".";
      assert SpellsDomain(s, name, rules);
    }
    forall name | SpellsDomain(s, name, rules) ensures WithoutDot(s) == name && ValidName(name, rules) {
      ValidNameIsSpelled(name, rules);
      NameEndsInLetter(name, rules);
    }
  }

  /** A domain is accepted exactly if it is spelled like one, and its form is the lower-case name without the dot. */
  lemma DomainOfExactly(s: string, rules: Rules)
    ensures DomainOf(s, rules).Some? <==> exists name :: SpellsDomain(s, name, rules)
    ensures forall name :: SpellsDomain(s, name, rules) ==> DomainIs(s, name, rules)
  {
    DomainExactly(s, rules);
    forall name | SpellsDomain(s, name, rules) ensures DomainIs(s, name, rules) { DomainFormOf(s, name, rules); }
  }

  predicate DomainIs(s: string, name: string, rules: Rules) {
    DomainOf(s, rules) == Some(Normal(Lower(name), GivesContext(Lower(name), rules)))
  }

  lemma DomainFormOf(s: string, name: string, rules: Rules)
    requires ValidDomain(s, rules) && WithoutDot(s) == name
    ensures DomainIs(s, name, rules)
  {
    DomainForm(s, rules);
    TrimmedName(name, rules);
    ContextExactly(Lower(name), rules);
  }

  lemma TrimmedName(name: string, rules: Rules)
    requires ValidName(name, rules)
    ensures Lower(TrimEnd(Lower(name), '.')) == Lower(name)
  {
    ValidNameChars(name, rules);
    LetterOrSame(name[|name| - 1]);
    assert TrimEnd(Lower(name), '.') == Lower(name);
    LowerTwice(name);
  }

  ghost predicate IsAddress(s: string, local: string, domain: string, rules: Rules) {
    s == local + "@" + domain && IsLocalPart(local) && ValidDomain(domain, rules)
  }

  predicate EmailIs(s: string, local: string, domain: string, rules: Rules) {
    EmailOf(s, rules) == Some(Normal(local + "@" + Lower(domain), ContextualDomain(domain, rules)))
  }

  lemma CutAt(s: string, at: nat)
    requires at < |s| && s[at] == '@'
    ensures s == s[..at] + "@" + s[at + 1..]
  {}

  lemma LocalIsValid(s: string, at: nat, rules: Rules) returns (valid: bool)
    requires LastIndex(s, '@') == Some(at) && at < |s|
    ensures valid == ValidLocal(s[..at]) && (EmailOf(s, rules).Some? ==> valid)
  {
    valid := ValidLocal(s[..at]);
  }

  lemma DomainIsValid(s: string, at: nat, rules: Rules) returns (valid: bool)
    requires LastIndex(s, '@') == Some(at) && at < |s|
    ensures valid == ValidDomain(s[at + 1..], rules) && (EmailOf(s, rules).Some? ==> valid)
  {
    valid := ValidDomain(s[at + 1..], rules);
  }

  lemma CutThere(s: string, rules: Rules) returns (local: string, domain: string)
    requires EmailOf(s, rules).Some?
    ensures s == local + "@" + domain && ValidLocal(local) && ValidDomain(domain, rules)
  {
    LastIndexIsLast(s, '@');
    var at := LastIndex(s, '@').value;
    local, domain := s[..at], s[at + 1..];
    CutAt(s, at);
    var _ := LocalIsValid(s, at, rules);
    var _ := DomainIsValid(s, at, rules);
  }

  lemma AddressIsCutThere(s: string, rules: Rules) returns (local: string, domain: string)
    requires EmailOf(s, rules).Some?
    ensures IsAddress(s, local, domain, rules)
  {
    local, domain := CutThere(s, rules);
    LocalPartExactly(local);
  }

  lemma EmailFormOf(s: string, local: string, domain: string, rules: Rules)
    requires IsAddress(s, local, domain, rules)
    ensures EmailIs(s, local, domain, rules)
  {
    LocalPartExactly(local);
    EmailParts(local, domain, rules);
  }

  /** An address is accepted exactly if it is a local part and a domain around an `@`. */
  lemma EmailOfExactly(s: string, rules: Rules)
    ensures EmailOf(s, rules).Some? <==> exists local, domain :: IsAddress(s, local, domain, rules)
    ensures forall local, domain :: IsAddress(s, local, domain, rules) ==> EmailIs(s, local, domain, rules)
  {
    if EmailOf(s, rules).Some? {
      var local, domain := AddressIsCutThere(s, rules);
    }
    forall local, domain | IsAddress(s, local, domain, rules) ensures EmailIs(s, local, domain, rules) {
      EmailFormOf(s, local, domain, rules);
    }
  }

  predicate Without(s: string, from: nat, chars: set<char>) {
    forall i :: from <= i < |s| ==> s[i] !in chars
  }

  lemma PipePrefix(s: string)
    requires |s| > 9
    ensures PIPE <= Lower(s) <==> Lower(s)[..9] == "\\\\.\\pipe\\"
  {
    assert |PIPE| == 9;
  }

  /** A pipe is a name without separators behind the prefix of pipes. */
  lemma PipeOfExactly(s: string)
    ensures PipeOf(s) ==
              if |s| > 9 && Lower(s[..9]) == "\\\\.\\pipe\\" && Without(s, 9, {':', '/', '\\'}) then Some(Normal(Lower(s), false)) else None
  {
    if |s| > 9 {
      assert Lower(s[..9]) == Lower(s)[..9];
      WithoutIsNone(s, 9, {':', '/', '\\'});
      PipePrefix(s);
    }
  }

  /** A registry key begins with one of the four short hives, and is at most 1024 bytes long. */
  lemma RegistryOfExactly(s: string)
    ensures var key := ShortenHives(Lower(s));
            RegistryOf(s) ==
              if Len(key) <= 1024 && (exists hive :: hive in {"hklm", "hkcu", "hkcr", "hku"} && hive + "\\" <= key)
              then Some(Normal(key, false)) else None
  {
    var key := ShortenHives(Lower(s));
    assert "hklm" + "\\" == "hklm\\" && "hkcu" + "\\" == "hkcu\\" && "hkcr" + "\\" == "hkcr\\" && "hku" + "\\" == "hku\\";
  }

  /** The same path as a list of components. */
  ghost predicate HasComponents(p: string, parts: seq<string>) {
    parts != [] && p == JoinWith(parts, '\\') && forall part :: part in parts ==> '\\' !in part
  }

  ghost predicate ClimbsUp(p: string) {
    exists parts :: HasComponents(p, parts) && ".." in parts
  }

  lemma ClimbsExactly(p: string)
    ensures ClimbsUp(p) <==> ".." in Split(p, '\\')
  {
    JoinedSplit(p, '\\');
    assert HasComponents(p, Split(p, '\\'));
    if ClimbsUp(p) {
      var parts :| HasComponents(p, parts) && ".." in parts;
      SplitJoined(parts, '\\');
    }
  }

  /** A path starts at the root of a drive and has none of the reserved characters and no component `..`. */
  lemma PathOfExactly(s: string)
    ensures PathOf(s).Some? <==>
              && 3 <= |s| && Len(s) <= 1024 && Alphabetic(s[0]) && s[1] == ':' && s[2] in {'\\', '/'}
              && Without(s, 2, {':', '*', '?', '"', '<', '>', '|'}) && !ClimbsUp(PathForm(s))
    ensures PathOf(s).Some? ==> |PathOf(s).value.text| == |s| && forall i :: 0 <= i < |s| ==> PathOf(s).value.text[i] == PathChar(s[i])
    ensures PathOf(s).Some? ==>
              (PathOf(s).value.contextual <==>
                 || "c:\\windows\\" <= PathOf(s).value.text || "c:\\program files\\" <= PathOf(s).value.text
                 || EndsWith(PathOf(s).value.text, "\\desktop.ini"))
  {
    ClimbsExactly(PathForm(s));
    var p := PathForm(s);
    forall i | 0 <= i < |s| ensures p[i] == PathChar(s[i]) { SlashOrLower(s[i]); }
    if |s| >= 2 {
      forall i | 2 <= i < |s|
        ensures p[2..][i - 2] in {':', '*', '?', '"', '<', '>', '|'} <==> s[i] in {':', '*', '?', '"', '<', '>', '|'}
      {
        SlashOrLower(s[i]);
      }
      WithoutPath(s, p);
    }
  }

  lemma WithoutPath(s: string, p: string)
    requires |p| == |s| >= 2
    requires forall i :: 2 <= i < |s| ==>
               (p[2..][i - 2] in {':', '*', '?', '"', '<', '>', '|'} <==> s[i] in {':', '*', '?', '"', '<', '>', '|'})
    ensures HasNone(p[2..], {':', '*', '?', '"', '<', '>', '|'}) <==> Without(s, 2, {':', '*', '?', '"', '<', '>', '|'})
  {
    if Without(s, 2, {':', '*', '?', '"', '<', '>', '|'}) {
      forall i | 0 <= i < |p[2..]| ensures p[2..][i] !in {':', '*', '?', '"', '<', '>', '|'} {
        assert s[i + 2] !in {':', '*', '?', '"', '<', '>', '|'};
      }
    }
  }

  lemma SlashOrLower(c: char)
    ensures (if LowerChar(c) == '/' then '\\' else LowerChar(c)) == PathChar(c)
    ensures PathChar(c) in {':', '*', '?', '"', '<', '>', '|'} <==> c in {':', '*', '?', '"', '<', '>', '|'}
  {}

  lemma WithoutIsNone(s: string, from: nat, chars: set<char>)
    requires from <= |s|
    ensures Without(s, from, chars) <==> HasNone(s[from..], chars)
  {
    if HasNone(s[from..], chars) {
      forall i | from <= i < |s| ensures s[i] !in chars { assert s[from..][i - from] !in chars; }
    }
  }

  // The kinds that are only looked at character by character.

  lemma FilenameExactly(s: string, rules: Rules)
    ensures FilenameOf(s, rules) ==
              if Len(s) <= 255 && '.' in s && Without(s, 0, {'/', '\\', ':', '*', '?', '"', '<', '>', '|'})
              then Some(Normal(Lower(s), Lower(s) in rules.systemFiles)) else None
  {
    WithoutIsNone(s, 0, {'/', '\\', ':', '*', '?', '"', '<', '>', '|'});
    assert s[0..] == s;
  }

  lemma NamedExactly(s: string)
    ensures NamedOf(s) ==
              if Len(s) <= 256 && Without(s, 0, {'\0', '"', '<', '>', '|'}) then Some(Normal(Lower(s), false)) else None
  {
    WithoutIsNone(s, 0, {'\0', '"', '<', '>', '|'});
    assert s[0..] == s;
  }

  lemma UserAgentExactly(s: string, rules: Rules)
    requires Presentable(s)
    ensures Normalize(UserAgent, s, rules) ==
              if Len(s) <= 512 && '/' in s && (forall c :: c in s ==> c as int < 128) then Some(Normal(s, "Mozilla/" <= s)) else None
  {
    forall i | 0 <= i < |s| ensures s[i] in s {}
  }

  predicate AllHex(s: string) {
    forall c :: c in s ==> '0' <= c <= '9' || 'a' <= c <= 'f' || 'A' <= c <= 'F'
  }

  lemma HexExactly(s: string)
    ensures AllHex(s) <==> !exists i :: 0 <= i < |s| && !IsHex(s[i])
  {
    if i :| 0 <= i < |s| && !IsHex(s[i]) { assert s[i] in s; }
  }

  lemma CertificateOfExactly(s: string)
    ensures CertificateOf(s) == if |s| == 64 && AllHex(s) then Some(Normal(Lower(s), false)) else None
  {
    HexExactly(s);
  }

  /** Presentable text is not empty, at most 2048 bytes long, without control characters and without white space around it. */
  lemma PresentableExactly(s: string)
    ensures Presentable(s) <==>
              && 0 < |s| && Len(s) <= 2048 && !IsWhitespace(s[0]) && !IsWhitespace(s[|s| - 1])
              && forall c :: c in s ==> !(c as int < 32) && !(127 <= c as int < 160)
  {
    forall i | 0 <= i < |s| ensures s[i] in s {}
  }

  /** Text that is not presentable is refused for every kind. */
  lemma OnlyPresentable(kind: Kind, s: string, rules: Rules)
    requires !Presentable(s)
    ensures Normalize(kind, s, rules) == None
  {}

  /** What is presentable is left to the test of its kind. */
  lemma NormalizeByKind(kind: Kind, s: string, rules: Rules)
    requires Presentable(s)
    ensures kind == Domain ==> Normalize(kind, s, rules) == DomainOf(s, rules)
    ensures kind == Email ==> Normalize(kind, s, rules) == EmailOf(s, rules)
    ensures kind == NamedPipe ==> Normalize(kind, s, rules) == PipeOf(s)
    ensures kind == Registry ==> Normalize(kind, s, rules) == RegistryOf(s)
    ensures kind == FilePath ==> Normalize(kind, s, rules) == PathOf(s)
    ensures kind == Filename ==> Normalize(kind, s, rules) == FilenameOf(s, rules)
    ensures kind == Named ==> Normalize(kind, s, rules) == NamedOf(s)
    ensures kind == CertificateSha256 ==> Normalize(kind, s, rules) == CertificateOf(s)
  {
    match kind {
      case Domain =>
      case Email =>
      case NamedPipe =>
      case Registry =>
      case FilePath =>
      case Filename =>
      case _ =>
    }
  }
}
