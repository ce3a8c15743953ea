/**
  Searching a text from which the spaces have been deleted is searching the text itself
  for the pattern's characters with nothing but spaces between them.
 */
module GappedMatch {
  import opened Text

  /** Go's `strings.Replace(s, " ", "", -1)`. */
  function RemoveSpaces(s: string): string {
    if s == "" then ""
    else RemoveSpaces(s[..|s| - 1]) + if s[|s| - 1] == ' ' then "" else [s[|s| - 1]]
  }

  /** Where the characters that are not spaces stand. */
  function Positions(s: string): seq<nat> {
    if s == "" then []
    else Positions(s[..|s| - 1]) + if s[|s| - 1] == ' ' then [] else [|s| - 1]
  }

  /** `p` occurs in `s` at the given positions, with only spaces in between. */
  ghost predicate GappedAt(s: string, p: string, at: seq<nat>) {
    && |at| == |p|
    && (forall i | 0 <= i < |at| :: at[i] < |s| && s[at[i]] == p[i])
    && (forall i | 0 <= i < |at| - 1 :: at[i] < at[i + 1])
    && (forall i, j | 0 <= i < |at| - 1 && at[i] < j < at[i + 1] && j < |s| :: s[j] == ' ')
  }

  ghost predicate Gapped(s: string, p: string) {
    exists at :: GappedAt(s, p, at)
  }

  lemma {:induction false} PositionsAre(s: string)
    ensures |Positions(s)| == |RemoveSpaces(s)|
    ensures forall i | 0 <= i < |Positions(s)| ::
      Positions(s)[i] < |s| && s[Positions(s)[i]] == RemoveSpaces(s)[i] != ' '
    ensures forall i, j | 0 <= i < j < |Positions(s)| :: Positions(s)[i] < Positions(s)[j]
    ensures forall j: nat | j < |s| && s[j] != ' ' :: j in Positions(s)
  {
    if s != "" {
      PositionsAre(s[..|s| - 1]);
    }
  }

  lemma NothingBetween(s: string, i: nat, j: nat)
    requires i + 1 < |Positions(s)| && Positions(s)[i] < j < Positions(s)[i + 1] && j < |s|
    ensures s[j] == ' '
  {
    var pos := Positions(s);
    PositionsAre(s);
    assert forall k | 0 <= k < |pos| :: pos[k] <= pos[i] || pos[k] >= pos[i + 1];
    assert j !in pos;
  }

  /** The character at place `i` among those that are not spaces. */
  lemma CharAt(s: string, i: nat)
    requires i < |RemoveSpaces(s)|
    ensures i < |Positions(s)| && Positions(s)[i] < |s|
    ensures s[Positions(s)[i]] == RemoveSpaces(s)[i] != ' '
    ensures i + 1 < |Positions(s)| ==> Positions(s)[i] < Positions(s)[i + 1]
  {
    PositionsAre(s);
  }

  lemma PlaceOf(s: string, j: nat) returns (k: nat)
    requires j < |s| && s[j] != ' '
    ensures k < |Positions(s)| && Positions(s)[k] == j
  {
    PositionsAre(s);
    k :| 0 <= k < |Positions(s)| && Positions(s)[k] == j;
  }

  lemma OccursChar(t: string, p: string, o: nat, i: nat)
    requires OccursAt(t, p, o) && i < |p|
    ensures t[o + i] == p[i]
  {
    assert t[o..o + |p|][i] == t[o + i];
  }

  lemma OccurrenceIsGapped(s: string, p: string, o: nat)
    requires OccursAt(RemoveSpaces(s), p, o)
    ensures Gapped(s, p)
  {
    var at := seq(|p|, i requires 0 <= i < |p| => PlaceIn(s, o + i));
    forall i | 0 <= i < |p| ensures at[i] == PlaceIn(s, o + i) < |s| && s[at[i]] == p[i] {
      CharAt(s, o + i);
      OccursChar(RemoveSpaces(s), p, o, i);
    }
    forall i | 0 <= i < |p| - 1
      ensures at[i] < at[i + 1] && forall j | at[i] < j < at[i + 1] && j < |s| :: s[j] == ' '
    {
      CharAt(s, o + i);
      CharAt(s, o + i + 1);
      forall j | at[i] < j < at[i + 1] && j < |s| ensures s[j] == ' ' {
        NothingBetween(s, o + i, j);
      }
    }
    assert GappedAt(s, p, at);
  }

  function PlaceIn(s: string, i: nat): nat {
    if i < |Positions(s)| then Positions(s)[i] else 0
  }

  /** No character that is not a space stands strictly between neighbours of an occurrence. */
  lemma NextPlace(s: string, p: string, at: seq<nat>, k: nat, n: nat)
    requires GappedAt(s, p, at) && ' ' !in p && n + 1 < |at|
    requires k < |Positions(s)| && Positions(s)[k] == at[n]
    ensures k + 1 < |Positions(s)| && Positions(s)[k + 1] == at[n + 1]
  {
    var pos := Positions(s);
    PositionsAre(s);
    assert s[at[n + 1]] == p[n + 1] && p[n + 1] in p;
    var l := PlaceOf(s, at[n + 1]);
    assert pos[k] < pos[l];
    assert l > k;
    CharAt(s, k + 1);
    assert at[n] < pos[k + 1] <= at[n + 1];
  }

  /** The positions of a gapped occurrence are consecutive among those that are not spaces. */
  lemma {:induction false} GappedIsConsecutive(s: string, p: string, at: seq<nat>, o: nat, n: nat)
    requires GappedAt(s, p, at) && ' ' !in p && n < |at|
    requires o < |Positions(s)| && Positions(s)[o] == at[0]
    ensures o + n < |Positions(s)| && Positions(s)[o + n] == at[n]
  {
    if n > 0 {
      GappedIsConsecutive(s, p, at, o, n - 1);
      NextPlace(s, p, at, o + n - 1, n - 1);
    }
  }

  lemma GappedOccurs(s: string, p: string, at: seq<nat>)
    requires GappedAt(s, p, at) && ' ' !in p
    ensures Contains(RemoveSpaces(s), p)
  {
    var t := RemoveSpaces(s);
    if p == "" {
      assert OccursAt(t, p, 0);
    } else {
      assert s[at[0]] == p[0] && p[0] in p;
      var o := PlaceOf(s, at[0]);
      PositionsAre(s);
      GappedIsConsecutive(s, p, at, o, |p| - 1);
      forall i | 0 <= i < |p| ensures t[o + i] == p[i] {
        GappedIsConsecutive(s, p, at, o, i);
        CharAt(s, o + i);
      }
      assert t[o..o + |p|] == p;
      assert OccursAt(t, p, o);
    }
  }

  /** For every pattern without spaces, and every text. */
  lemma ContainsIsGapped(s: string, p: string)
    requires ' ' !in p
    ensures Contains(RemoveSpaces(s), p) <==> Gapped(s, p)
  {
    if Contains(RemoveSpaces(s), p) {
      var o: nat :| o <= |RemoveSpaces(s)| && OccursAt(RemoveSpaces(s), p, o);
      OccurrenceIsGapped(s, p, o);
    }
    if Gapped(s, p) {
      var at :| GappedAt(s, p, at);
      GappedOccurs(s, p, at);
    }
  }
}
