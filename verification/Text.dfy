/**
  The string operations the modelled code relies on: search, shell words and
  parameter expansion, splitting and joining, deletion of spaces, trimming.
 */
module Text {
  predicate OccursAt(s: string, p: string, i: nat) {
    i + |p| <= |s| && s[i..i + |p|] == p
  }

  predicate Contains(s: string, p: string) {
    exists i: nat | i <= |s| :: OccursAt(s, p, i)
  }

  lemma OccursSplits(s: string, p: string, i: nat)
    requires OccursAt(s, p, i)
    ensures s == s[..i] + p + s[i + |p|..]
  {
  }

  /** What separates words in an unquoted shell expansion. */
  predicate IsShellBlank(c: char) {
    c == ' ' || c == '\t' || c == '\n'
  }

  /** The words of an unquoted shell expansion; `open` is the word being read. */
  function WordsFrom(s: string, open: string): (words: seq<string>)
    ensures forall w | w in words :: w != ""
    decreases |s|
  {
    if s == "" then (if open == "" then [] else [open])
    else if IsShellBlank(s[0]) then (if open == "" then [] else [open]) + WordsFrom(s[1..], "")
    else WordsFrom(s[1..], open + [s[0]])
  }

  function Words(s: string): (words: seq<string>)
    ensures forall w | w in words :: w != ""
  {
    WordsFrom(s, "")
  }

  lemma {:induction false} NoWordsExactly(s: string, open: string)
    ensures WordsFrom(s, open) == [] <==> open == "" && forall c | c in s :: IsShellBlank(c)
    decreases |s|
  {
    if s != "" {
      assert s == [s[0]] + s[1..];
      NoWordsExactly(s[1..], "");
      NoWordsExactly(s[1..], open + [s[0]]);
    }
  }

  /** Reading on past characters that are no blanks. */
  lemma {:induction false} WordsPast(w: string, rest: string, open: string)
    requires forall c | c in w :: !IsShellBlank(c)
    ensures WordsFrom(w + rest, open) == WordsFrom(rest, open + w)
    decreases |w|
  {
    if w == "" {
      assert w + rest == rest && open + w == open;
    } else {
      assert (w + rest)[1..] == w[1..] + rest;
      assert open + [w[0]] + w[1..] == open + w;
      WordsPast(w[1..], rest, open + [w[0]]);
    }
  }

  /** A text without blanks is a single word. */
  lemma OneWord(w: string)
    requires w != "" && forall c | c in w :: !IsShellBlank(c)
    ensures Words(w) == [w]
  {
    WordsPast(w, "", "");
    assert w + "" == w && "" + w == w;
  }

  /** A new word begins after this text. */
  predicate Ended(s: string, open: string) {
    if s == "" then open == "" else IsShellBlank(s[|s| - 1])
  }

  /** What one more character at the end makes of the words. */
  lemma {:induction false} WordsSnoc(s: string, open: string, c: char)
    ensures var words := WordsFrom(s, open);
      if IsShellBlank(c) then WordsFrom(s + [c], open) == words
      else if Ended(s, open) then WordsFrom(s + [c], open) == words + [[c]]
      else words != [] && WordsFrom(s + [c], open) == words[..|words| - 1] + [words[|words| - 1] + [c]]
    decreases |s|
  {
    if s == "" {
      assert s + [c] == [c] && [c][1..] == "";
    } else {
      assert (s + [c])[1..] == s[1..] + [c];
      WordsSnoc(s[1..], if IsShellBlank(s[0]) then "" else open + [s[0]], c);
    }
  }

  predicate IsStretch(s: string, word: string, at: (nat, nat)) {
    at.0 < at.1 <= |s| && word == s[at.0..at.1] && forall c | c in word :: !IsShellBlank(c)
  }

  predicate InSome(at: seq<(nat, nat)>, i: nat) {
    exists k | 0 <= k < |at| :: at[k].0 <= i < at[k].1
  }

  /** The words, with their places in the text; outside them there are only blanks. */
  ghost predicate AreWords(s: string, words: seq<string>, at: seq<(nat, nat)>) {
    && |at| == |words|
    && (forall k | 0 <= k < |at| :: IsStretch(s, words[k], at[k]))
    && (forall k | 0 <= k < |at| - 1 :: at[k].1 < at[k + 1].0)
    && (forall i | 0 <= i < |s| && !IsShellBlank(s[i]) :: InSome(at, i))
  }

  /** The last word stretches to the end of the text exactly when the text does not end in a blank. */
  predicate AtEnd(s: string, at: seq<(nat, nat)>) {
    if s == "" || IsShellBlank(s[|s| - 1]) then at == [] || at[|at| - 1].1 < |s|
    else at != [] && at[|at| - 1].1 == |s|
  }

  lemma SameStretch(s: string, c: char, word: string, at: (nat, nat))
    requires IsStretch(s, word, at)
    ensures IsStretch(s + [c], word, at)
  {
    assert (s + [c])[at.0..at.1] == s[at.0..at.1];
  }

  lemma StretchesStay(s: string, c: char, words: seq<string>, at: seq<(nat, nat)>)
    requires |at| == |words| && forall k | 0 <= k < |at| :: IsStretch(s, words[k], at[k])
    ensures forall k | 0 <= k < |at| :: IsStretch(s + [c], words[k], at[k])
  {
    forall k | 0 <= k < |at| ensures IsStretch(s + [c], words[k], at[k]) {
      SameStretch(s, c, words[k], at[k]);
    }
  }

  lemma AfterBlank(s: string, c: char, words: seq<string>, at: seq<(nat, nat)>)
    requires AreWords(s, words, at) && AtEnd(s, at) && IsShellBlank(c)
    ensures AreWords(s + [c], words, at) && AtEnd(s + [c], at)
  {
    StretchesStay(s, c, words, at);
    assert forall i | 0 <= i < |s + [c]| && !IsShellBlank((s + [c])[i]) :: i < |s| && !IsShellBlank(s[i]);
  }

  lemma AfterStart(s: string, c: char, words: seq<string>, at: seq<(nat, nat)>)
    requires AreWords(s, words, at) && AtEnd(s, at) && !IsShellBlank(c) && Ended(s, "")
    ensures AreWords(s + [c], words + [[c]], at + [(|s|, |s| + 1)]) && AtEnd(s + [c], at + [(|s|, |s| + 1)])
  {
    var longer := at + [(|s|, |s| + 1)];
    StretchesStay(s, c, words, at);
    assert IsStretch(s + [c], [c], (|s|, |s| + 1));
    forall i | 0 <= i < |s + [c]| && !IsShellBlank((s + [c])[i]) ensures InSome(longer, i) {
      if i < |s| {
        assert InSome(at, i);
        var k :| 0 <= k < |at| && at[k].0 <= i < at[k].1;
        assert longer[k] == at[k];
      } else {
        assert longer[|at|].0 <= i < longer[|at|].1;
      }
    }
  }

  lemma AfterMore(s: string, c: char, words: seq<string>, at: seq<(nat, nat)>, word: string, from: nat)
    requires AreWords(s, words + [word], at + [(from, |s|)]) && !IsShellBlank(c)
    ensures AreWords(s + [c], words + [word + [c]], at + [(from, |s| + 1)])
    ensures AtEnd(s + [c], at + [(from, |s| + 1)])
  {
    var was, now := at + [(from, |s|)], at + [(from, |s| + 1)];
    assert forall k | 0 <= k < |at| :: was[k] == at[k] && now[k] == at[k] && (words + [word])[k] == words[k];
    assert IsStretch(s, (words + [word])[|at|], was[|at|]);
    assert forall k | 0 <= k < |at| :: IsStretch(s, (words + [word])[k], was[k]);
    StretchesStay(s, c, words, at);
    assert (s + [c])[from..|s| + 1] == word + [c];
    assert IsStretch(s + [c], word + [c], (from, |s| + 1));
    forall i | 0 <= i < |s + [c]| && !IsShellBlank((s + [c])[i]) ensures InSome(now, i) {
      if i < |s| {
        assert InSome(was, i);
        var k :| 0 <= k < |was| && was[k].0 <= i < was[k].1;
        assert now[k].0 <= i < now[k].1;
      } else {
        assert now[|at|].0 <= i < now[|at|].1;
      }
    }
  }

  ghost predicate HasPlaces(s: string, words: seq<string>) {
    exists at :: AreWords(s, words, at) && AtEnd(s, at)
  }

  lemma LastLonger(s: string, c: char, words: seq<string>, at: seq<(nat, nat)>) returns (at': seq<(nat, nat)>)
    requires AreWords(s, words, at) && AtEnd(s, at) && !IsShellBlank(c) && !Ended(s, "") && words != []
    ensures AreWords(s + [c], words[..|words| - 1] + [words[|words| - 1] + [c]], at') && AtEnd(s + [c], at')
  {
    var m := |words| - 1;
    assert words == words[..m] + [words[m]] && at == at[..m] + [(at[m].0, |s|)];
    AfterMore(s, c, words[..m], at[..m], words[m], at[m].0);
    at' := at[..m] + [(at[m].0, |s| + 1)];
  }

  lemma PlacesAfterBlank(s: string, c: char, words: seq<string>)
    requires HasPlaces(s, words) && IsShellBlank(c)
    ensures HasPlaces(s + [c], words)
  {
    var at :| AreWords(s, words, at) && AtEnd(s, at);
    AfterBlank(s, c, words, at);
  }

  lemma PlacesAfterStart(s: string, c: char, words: seq<string>)
    requires HasPlaces(s, words) && !IsShellBlank(c) && Ended(s, "")
    ensures HasPlaces(s + [c], words + [[c]])
  {
    var at :| AreWords(s, words, at) && AtEnd(s, at);
    AfterStart(s, c, words, at);
  }

  lemma PlacesAfterMore(s: string, c: char, words: seq<string>)
    requires HasPlaces(s, words) && !IsShellBlank(c) && !Ended(s, "") && words != []
    ensures HasPlaces(s + [c], words[..|words| - 1] + [words[|words| - 1] + [c]])
  {
    var at :| AreWords(s, words, at) && AtEnd(s, at);
    var at' := LastLonger(s, c, words, at);
  }

  lemma {:induction false} WordsHavePlaces(s: string)
    ensures HasPlaces(s, Words(s))
    decreases |s|
  {
    if s == "" {
      assert AreWords(s, Words(s), []) && AtEnd(s, []);
    } else {
      var init, c := s[..|s| - 1], s[|s| - 1];
      assert init + [c] == s;
      WordsHavePlaces(init);
      WordsSnoc(init, "", c);
      if IsShellBlank(c) {
        PlacesAfterBlank(init, c, Words(init));
      } else if Ended(init, "") {
        PlacesAfterStart(init, c, Words(init));
      } else {
        PlacesAfterMore(init, c, Words(init));
      }
    }
  }

  /**
    The words of a text are its longest stretches without a blank, in order: `at` says where
    each begins and ends, there is a gap between neighbours, and outside all is blank.
   */
  lemma WordsAre(s: string) returns (at: seq<(nat, nat)>)
    ensures |at| == |Words(s)|
    ensures forall k | 0 <= k < |at| :: at[k].0 < at[k].1 <= |s| && Words(s)[k] == s[at[k].0..at[k].1]
    ensures forall w | w in Words(s) :: ' ' !in w && '\t' !in w && '\n' !in w
    ensures forall k | 0 <= k < |at| - 1 :: at[k].1 < at[k + 1].0
    ensures forall i | 0 <= i < |s| && s[i] != ' ' && s[i] != '\t' && s[i] != '\n' ::
      exists k | 0 <= k < |at| :: at[k].0 <= i < at[k].1
  {
    WordsHavePlaces(s);
    at :| AreWords(s, Words(s), at) && AtEnd(s, at);
    forall k | 0 <= k < |at| ensures at[k].0 < at[k].1 <= |s| && Words(s)[k] == s[at[k].0..at[k].1] {
      assert IsStretch(s, Words(s)[k], at[k]);
    }
    forall i | 0 <= i < |s| && s[i] != ' ' && s[i] != '\t' && s[i] != '\n'
      ensures exists k | 0 <= k < |at| :: at[k].0 <= i < at[k].1
    {
      assert InSome(at, i);
    }
    forall w | w in Words(s) ensures ' ' !in w && '\t' !in w && '\n' !in w {
      var k :| 0 <= k < |at| && Words(s)[k] == w;
      assert IsStretch(s, w, at[k]);
    }
  }

  /** The shell's `${w##*:}`: what follows the last colon, or everything if there is none. */
  function AfterLastColon(w: string): string
    decreases |w|
  {
    if w == "" || w[|w| - 1] == ':' then "" else AfterLastColon(w[..|w| - 1]) + [w[|w| - 1]]
  }

  /** Only a front that ends in a colon is cut, and no colon is left. */
  lemma {:induction false} Cut(w: string) returns (front: string)
    ensures ':' !in AfterLastColon(w)
    ensures w == AfterLastColon(w) || w == front + ":" + AfterLastColon(w)
    decreases |w|
  {
    front := "";
    if w != "" {
      var init, last := w[..|w| - 1], w[|w| - 1];
      assert w == init + [last];
      if last == ':' {
        front := init;
      } else {
        front := Cut(init);
      }
    }
  }

  /** A part without a colon is kept whole, on its own and behind a colon. */
  lemma {:induction false} OfTail(front: string, name: string)
    requires ':' !in name
    ensures AfterLastColon(name) == name
    ensures AfterLastColon(front + ":" + name) == name
    decreases |name|
  {
    var w := front + ":" + name;
    if name == "" {
      assert w[|w| - 1] == ':';
    } else {
      var init := name[..|name| - 1];
      assert name == init + [name[|name| - 1]];
      assert w[..|w| - 1] == front + ":" + init && w[|w| - 1] == name[|name| - 1];
      OfTail(front, init);
    }
  }

  /** It is the one part without a colon that is the whole word or follows a colon. */
  lemma AfterLastColonIs(w: string, name: string)
    ensures AfterLastColon(w) == name <==>
      ':' !in name && (w == name || exists front :: w == front + ":" + name)
  {
    var cut := Cut(w);
    if ':' !in name {
      OfTail("", name);
      if front :| w == front + ":" + name { OfTail(front, name); }
    }
  }
}
