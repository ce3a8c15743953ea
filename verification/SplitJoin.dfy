/** Go's `strings.Split` and `strings.Join` on a one-character separator, and trimming. */
module SplitJoin {
  /** The pieces of `s`; `open` is the piece being read. */
  function SplitFrom(s: string, open: string, sep: char): (parts: seq<string>)
    ensures parts != []
    decreases |s|
  {
    if s == "" then [open]
    else if s[0] == sep then [open] + SplitFrom(s[1..], "", sep)
    else SplitFrom(s[1..], open + [s[0]], sep)
  }

  function Split(s: string, sep: char): (parts: seq<string>)
    ensures parts != []
  {
    SplitFrom(s, "", sep)
  }

  function Join(parts: seq<string>, sep: char): string {
    if parts == [] then "" else if |parts| == 1 then parts[0] else parts[0] + [sep] + Join(parts[1..], sep)
  }

  function Count(s: string, c: char): nat {
    if s == "" then 0 else (if s[0] == c then 1 else 0) + Count(s[1..], c)
  }

  lemma {:induction false} JoinSplitFrom(s: string, open: string, sep: char)
    ensures Join(SplitFrom(s, open, sep), sep) == open + s
    decreases |s|
  {
    if s != "" {
      assert s == [s[0]] + s[1..];
      if s[0] == sep {
        var rest := SplitFrom(s[1..], "", sep);
        JoinSplitFrom(s[1..], "", sep);
        assert ([open] + rest)[1..] == rest;
        assert open + s == open + [sep] + ("" + s[1..]);
      } else {
        JoinSplitFrom(s[1..], open + [s[0]], sep);
        assert open + s == open + [s[0]] + s[1..];
      }
    }
  }

  /** Joining the pieces gives the string back, whatever it is. */
  lemma JoinSplit(s: string, sep: char)
    ensures Join(Split(s, sep), sep) == s
  {
    JoinSplitFrom(s, "", sep);
    assert "" + s == s;
  }

  lemma {:induction false} SplitPast(p: string, rest: string, open: string, sep: char)
    requires sep !in p
    ensures SplitFrom(p + rest, open, sep) == SplitFrom(rest, open + p, sep)
    decreases |p|
  {
    if p == "" {
      assert p + rest == rest && open + p == open;
    } else {
      assert (p + rest)[1..] == p[1..] + rest;
      assert open + [p[0]] + p[1..] == open + p;
      SplitPast(p[1..], rest, open + [p[0]], sep);
    }
  }

  /** Splitting a join of pieces without the separator gives the pieces back. */
  lemma {:induction false} SplitJoined(parts: seq<string>, sep: char)
    requires parts != [] && forall p | p in parts :: sep !in p
    ensures Split(Join(parts, sep), sep) == parts
    decreases |parts|
  {
    if |parts| == 1 {
      SplitPast(parts[0], "", "", sep);
      assert parts[0] + "" == parts[0] && "" + parts[0] == parts[0];
    } else {
      var tail := Join(parts[1..], sep);
      SplitPast(parts[0], [sep] + tail, "", sep);
      assert parts[0] + ([sep] + tail) == parts[0] + [sep] + tail && "" + parts[0] == parts[0];
      assert ([sep] + tail)[1..] == tail;
      SplitJoined(parts[1..], sep);
    }
  }

  lemma {:induction false} SplitFromCounts(s: string, open: string, sep: char)
    requires sep !in open
    ensures |SplitFrom(s, open, sep)| == Count(s, sep) + 1
    ensures forall p | p in SplitFrom(s, open, sep) :: sep !in p
    decreases |s|
  {
    if s != "" {
      if s[0] == sep {
        SplitFromCounts(s[1..], "", sep);
      } else {
        SplitFromCounts(s[1..], open + [s[0]], sep);
      }
    }
  }

  /** There is one piece more than there are separators, and none inside a piece. */
  lemma SplitCounts(s: string, sep: char)
    ensures |Split(s, sep)| == Count(s, sep) + 1
    ensures forall p | p in Split(s, sep) :: sep !in p
  {
    SplitFromCounts(s, "", sep);
  }

  // ---------- trimming ----------

  /** Go's unicode.IsSpace. */
  predicate IsSpace(c: char) {
    || '\t' <= c <= '\r' || c == ' ' || c == '\U{85}' || c == '\U{A0}'
    || c == '\U{1680}' || '\U{2000}' <= c <= '\U{200A}' || c == '\U{2028}' || c == '\U{2029}'
    || c == '\U{202F}' || c == '\U{205F}' || c == '\U{3000}'
  }

  /** The white space of Unicode, by code point. */
  lemma IsSpaceExactly(c: char)
    ensures IsSpace(c) <==>
      || 9 <= c as int <= 13 || 8192 <= c as int <= 8202
      || c as int in {32, 133, 160, 5760, 8232, 8233, 8239, 8287, 12288}
  {
  }

  function TrimLeft(s: string): (r: string)
    ensures r != "" ==> !IsSpace(r[0])
    decreases |s|
  {
    if s != "" && IsSpace(s[0]) then TrimLeft(s[1..]) else s
  }

  function TrimRight(s: string): (r: string)
    ensures r != "" ==> s != "" && r[0] == s[0] && !IsSpace(r[|r| - 1])
    decreases |s|
  {
    if s != "" && IsSpace(s[|s| - 1]) then TrimRight(s[..|s| - 1]) else s
  }

  /** Go's `strings.TrimSpace`. */
  function TrimSpace(s: string): (r: string)
    ensures r != "" ==> !IsSpace(r[0]) && !IsSpace(r[|r| - 1])
  {
    TrimRight(TrimLeft(s))
  }

  ghost predicate Blank(s: string) {
    forall c | c in s :: IsSpace(c)
  }

  lemma {:induction false} TrimLeftCuts(s: string) returns (front: string)
    ensures s == front + TrimLeft(s) && Blank(front)
    decreases |s|
  {
    front := "";
    if s != "" && IsSpace(s[0]) {
      var f := TrimLeftCuts(s[1..]);
      front := [s[0]] + f;
    }
  }

  lemma {:induction false} TrimRightCuts(s: string) returns (back: string)
    ensures s == TrimRight(s) + back && Blank(back)
    decreases |s|
  {
    back := "";
    if s != "" && IsSpace(s[|s| - 1]) {
      var b := TrimRightCuts(s[..|s| - 1]);
      back := b + [s[|s| - 1]];
    }
  }

  /** Only white space goes, and only from the two ends. */
  lemma TrimSpaceCuts(s: string) returns (front: string, back: string)
    ensures s == front + TrimSpace(s) + back && Blank(front) && Blank(back)
  {
    front := TrimLeftCuts(s);
    back := TrimRightCuts(TrimLeft(s));
  }
}
