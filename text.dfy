/** The three string primitives the summariser relies on: lower-casing
    (`str.lower`), the substring test (`needle in hay` on two strings) and
    joining with a single space (`" ".join(...)`). */
module Text {

  /** Lower-casing of one character, restricted to ASCII. */
  function LowerChar(c: char): char {
    if 'A' <= c <= 'Z' then (c as int + 32) as char else c
  }

  /** `s.lower()`, restricted to ASCII: every upper-case letter becomes the
      matching lower-case one, every other character is kept. */
  function Lower(s: string): (r: string)
    ensures |r| == |s|
    ensures forall i :: 0 <= i < |r| ==> !('A' <= r[i] <= 'Z')
    ensures forall i :: 0 <= i < |r| && !('A' <= s[i] <= 'Z') ==> r[i] == s[i]
    ensures forall i :: 0 <= i < |s| && 'A' <= s[i] <= 'Z' ==> r[i] == (s[i] as int + 32) as char
  {
    seq(|s|, i requires 0 <= i < |s| => LowerChar(s[i]))
  }

  /** Lower-casing a lower-case string changes nothing. */
  lemma LowerIdempotent(s: string)
    ensures Lower(Lower(s)) == Lower(s)
  {
  }

  predicate StartsWith(s: string, prefix: string) {
    |prefix| <= |s| && s[..|prefix|] == prefix
  }

  /** Python's `needle in hay` for two strings: `needle` occurs as a
      contiguous piece of `hay` (the empty string occurs in every string). */
  predicate Contains(hay: string, needle: string)
    decreases |hay|
  {
    StartsWith(hay, needle) || (|hay| > 0 && Contains(hay[1..], needle))
  }

  /** `needle` sits in `hay` at position `i`. */
  predicate OccursAt(hay: string, needle: string, i: int) {
    0 <= i && i + |needle| <= |hay| && hay[i..i + |needle|] == needle
  }

  /** The recursive substring test agrees with the positional definition. */
  lemma {:induction false} ContainsIff(hay: string, needle: string)
    ensures Contains(hay, needle) <==> exists i :: OccursAt(hay, needle, i)
    decreases |hay|
  {
    if StartsWith(hay, needle) {
      assert OccursAt(hay, needle, 0);
    } else if |hay| > 0 {
      ContainsIff(hay[1..], needle);
      if Contains(hay[1..], needle) {
        var i :| OccursAt(hay[1..], needle, i);
        assert hay[1..][i..i + |needle|] == hay[i + 1..i + 1 + |needle|];
        assert OccursAt(hay, needle, i + 1);
      }
      forall i | OccursAt(hay, needle, i) && i > 0
        ensures Contains(hay[1..], needle)
      {
        assert hay[1..][i - 1..i - 1 + |needle|] == hay[i..i + |needle|];
        assert OccursAt(hay[1..], needle, i - 1);
      }
    }
  }

  /** A non-empty string whose first character does not occur in `hay` is
      not a substring of it. */
  lemma FirstCharAbsent(hay: string, needle: string)
    requires |needle| > 0 && needle[0] !in hay
    ensures !Contains(hay, needle)
  {
    ContainsIff(hay, needle);
  }

  /** `" ".join(pieces)`: the pieces in order, one space between neighbours. */
  function JoinWithSpace(pieces: seq<string>): string {
    if |pieces| == 0 then ""
    else if |pieces| == 1 then pieces[0]
    else pieces[0] + " " + JoinWithSpace(pieces[1..])
  }

  /** Where piece `i` starts in the joined string: the lengths of the pieces
      before it, each followed by its separating space. */
  function Offset(pieces: seq<string>, i: nat): nat
    requires i <= |pieces|
  {
    if i == 0 then 0 else Offset(pieces, i - 1) + |pieces[i - 1]| + 1
  }

  lemma {:induction false} OffsetShift(pieces: seq<string>, i: nat)
    requires 0 < |pieces| && i < |pieces|
    ensures Offset(pieces, i + 1) == |pieces[0]| + 1 + Offset(pieces[1..], i)
  {
    if i > 0 {
      OffsetShift(pieces, i - 1);
    }
  }

  /** The joined string is the pieces' total length plus one space between
      each pair of neighbours; it is empty exactly when there are no pieces
      or a single empty one. */
  lemma {:induction false} JoinLength(pieces: seq<string>)
    ensures |pieces| == 0 ==> JoinWithSpace(pieces) == ""
    ensures |pieces| > 0 ==> |JoinWithSpace(pieces)| + 1 == Offset(pieces, |pieces|)
  {
    if |pieces| > 1 {
      JoinLength(pieces[1..]);
      OffsetShift(pieces, |pieces| - 1);
    }
  }

  /** Piece `i` sits in the joined string at `Offset(pieces, i)`, and a
      single space follows every piece but the last. With JoinLength this
      determines the joined string completely. */
  lemma {:induction false} JoinPiece(pieces: seq<string>, i: nat)
    requires i < |pieces|
    ensures Offset(pieces, i) + |pieces[i]| <= |JoinWithSpace(pieces)|
    ensures JoinWithSpace(pieces)[Offset(pieces, i)..Offset(pieces, i) + |pieces[i]|] == pieces[i]
    ensures i < |pieces| - 1 ==> Offset(pieces, i) + |pieces[i]| < |JoinWithSpace(pieces)|
    ensures i < |pieces| - 1 ==> JoinWithSpace(pieces)[Offset(pieces, i) + |pieces[i]|] == ' '
  {
    if |pieces| > 1 {
      var rest := pieces[1..];
      var s := JoinWithSpace(pieces);
      assert s == pieces[0] + " " + JoinWithSpace(rest);
      if i > 0 {
        JoinPiece(rest, i - 1);
        OffsetShift(pieces, i - 1);
        assert pieces[i] == rest[i - 1];
        var o := Offset(rest, i - 1);
        assert s[|pieces[0]| + 1 + o..|pieces[0]| + 1 + o + |pieces[i]|]
            == JoinWithSpace(rest)[o..o + |pieces[i]|];
      } else {
        assert s[..|pieces[0]|] == pieces[0];
      }
    }
  }

  /** `s` is laid out as `pieces` joined by single spaces: empty for no
      pieces; otherwise each piece at its offset, a space after every piece
      but the last, and nothing after the last piece. */
  predicate LaidOut(s: string, pieces: seq<string>) {
    (|pieces| == 0 ==> s == "") &&
    (|pieces| > 0 ==> |s| + 1 == Offset(pieces, |pieces|)) &&
    forall k :: 0 <= k < |pieces| ==>
      Offset(pieces, k) + |pieces[k]| <= |s| &&
      s[Offset(pieces, k)..Offset(pieces, k) + |pieces[k]|] == pieces[k] &&
      (k < |pieces| - 1 ==> Offset(pieces, k) + |pieces[k]| < |s| && s[Offset(pieces, k) + |pieces[k]|] == ' ')
  }

  /** The joined string has the layout of its pieces. */
  lemma JoinLayout(pieces: seq<string>)
    ensures LaidOut(JoinWithSpace(pieces), pieces)
  {
    JoinLength(pieces);
    forall k | 0 <= k < |pieces|
      ensures Offset(pieces, k) + |pieces[k]| <= |JoinWithSpace(pieces)|
      ensures JoinWithSpace(pieces)[Offset(pieces, k)..Offset(pieces, k) + |pieces[k]|] == pieces[k]
      ensures k < |pieces| - 1 ==>
        Offset(pieces, k) + |pieces[k]| < |JoinWithSpace(pieces)| &&
        JoinWithSpace(pieces)[Offset(pieces, k) + |pieces[k]|] == ' '
    {
      JoinPiece(pieces, k);
    }
  }
}
