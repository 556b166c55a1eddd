/**
 What the rules of the Microsoft C runtime come to for plain words: blanks between them, however many
 and of whichever kind, separate them and do nothing else. This is what quoting has to work against.
 */
module CommandLineRules {
  import opened Text
  import opened CommandLine

  predicate IsGap(s: string) {
    s != "" && forall i :: 0 <= i < |s| ==> s[i] == ' ' || s[i] == '\t'
  }

  ghost predicate IsWord(s: string) { s != "" && Plain(s) }

  /** The words of a line, each behind its gap. */
  function Spread(gaps: seq<string>, words: seq<string>): (s: string)
    requires |gaps| == |words|
    ensures words != [] && gaps[0] != "" ==> s != "" && s[0] == gaps[0][0]
    ensures words == [] ==> s == ""
  {
    if words == [] then "" else gaps[0] + (words[0] + Spread(gaps[1..], words[1..]))
  }

  lemma {:induction false} GapIsSkipped(gap: string, s: string)
    requires forall i :: 0 <= i < |gap| ==> gap[i] == ' ' || gap[i] == '\t'
    ensures ScanArgs(gap + s) == ScanArgs(s)
  {
    if gap == "" {
      assert gap + s == s;
    } else {
      GapIsSkipped(gap[1..], s);
      assert (gap + s)[1..] == gap[1..] + s;
    }
  }

  predicate AtGap(tail: string) { tail == "" || tail[0] == ' ' || tail[0] == '\t' }

  lemma {:induction false} WordEndsAtGap(word: string, pending: nat, tail: string)
    requires Plain(word) && AtGap(tail)
    ensures ScanArg(word + tail, pending, false) == (Backslashes(pending) + word, tail)
  {
    if word == "" {
      assert word + tail == tail && Backslashes(pending) + word == Backslashes(pending);
    } else {
      var rest := word[1..];
      assert word == [word[0]] + rest && word + tail == [word[0]] + (rest + tail);
      if word[0] == '\\' {
        WordEndsAtGap(rest, pending + 1, tail);
        OneMoreBackslash(pending, rest);
        assert (word + tail)[1..] == rest + tail;
      } else {
        WordEndsAtGap(rest, 0, tail);
        assert Backslashes(0) + rest == rest;
        ScanOrdinary(word[0], rest + tail, pending, false);
        assert Backslashes(pending) + [word[0]] + rest == Backslashes(pending) + word;
      }
    }
  }

  lemma WordIsScanned(word: string, tail: string)
    requires IsWord(word) && AtGap(tail)
    ensures ScanArgs(word + tail) == [word] + ScanArgs(tail)
  {
    WordEndsAtGap(word, 0, tail);
    assert Backslashes(0) + word == word;
    assert (word + tail)[0] == word[0] && !IsWhitespace(word[0]);
  }

  /** The arguments of a line of words are the words. */
  lemma {:induction false} WordsAreArguments(gaps: seq<string>, words: seq<string>)
    requires |gaps| == |words| && forall i :: 0 <= i < |gaps| ==> IsGap(gaps[i]) && IsWord(words[i])
    ensures ScanArgs(Spread(gaps, words)) == words
  {
    if words != [] {
      var rest := Spread(gaps[1..], words[1..]);
      WordsAreArguments(gaps[1..], words[1..]);
      assert words[1..] != [] ==> IsGap(gaps[1..][0]);
      GapIsSkipped(gaps[0], words[0] + rest);
      WordIsScanned(words[0], rest);
      assert [words[0]] + words[1..] == words;
    }
  }
}
