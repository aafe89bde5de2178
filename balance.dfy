/**
 * Balance extraction: every checker turns the balance endpoint's reply into
 * the notification "Баланс: " + text.split('ACCESS_BALANCE:')[-1].
 *
 * `Split` follows Python's `str.split` with an explicit separator: scan left
 * to right, cut at each leftmost occurrence, keep the empty pieces.
 */
module Balance {
  import opened Http

  const Marker: string := "ACCESS_BALANCE:"
  const Prefix: string := "Баланс: "

  /** `sep` occurs in `s` at index i. */
  predicate OccursAt(s: string, sep: string, i: int) {
    0 <= i && i + |sep| <= |s| && s[i..i + |sep|] == sep
  }

  /** `sep` occurs nowhere in `s`. */
  ghost predicate Absent(s: string, sep: string) {
    forall i :: !OccursAt(s, sep, i)
  }

  /** An occurrence in a suffix of `s` is an occurrence in `s`, shifted. */
  lemma {:induction false} OccursInSuffix(s: string, sep: string, d: int, k: int)
    requires 0 <= d <= |s|
    ensures OccursAt(s[d..], sep, k) <==> 0 <= k && OccursAt(s, sep, d + k)
  {
    if 0 <= k && k + |sep| <= |s| - d {
      assert s[d..][k..k + |sep|] == s[d + k..d + k + |sep|];
    }
  }

  /** The leftmost occurrence of `sep` in `s` (`str.find`); it fits in `s`. */
  function Find(s: string, sep: string): (r: Option<nat>)
    requires |sep| > 0
    ensures r.Some? ==> r.value + |sep| <= |s|
    decreases |s|
  {
    if |s| < |sep| then None
    else if s[..|sep|] == sep then Some(0)
    else
      match Find(s[1..], sep)
      case None => None
      case Some(i) => Some(i + 1)
  }

  /** `Find` returns the leftmost occurrence, and None exactly when there is none. */
  lemma {:induction false} FindIsLeftmost(s: string, sep: string)
    requires |sep| > 0
    ensures Find(s, sep).Some? ==>
              && OccursAt(s, sep, Find(s, sep).value)
              && forall j :: 0 <= j < Find(s, sep).value ==> !OccursAt(s, sep, j)
    ensures Find(s, sep).None? ==> Absent(s, sep)
    decreases |s|
  {
    if |s| >= |sep| && s[..|sep|] != sep {
      assert !OccursAt(s, sep, 0);
      FindIsLeftmost(s[1..], sep);
      match Find(s[1..], sep)
      case Some(k) =>
        OccursInSuffix(s, sep, 1, k);
        forall j | 1 <= j < k + 1 ensures !OccursAt(s, sep, j) {
          OccursInSuffix(s, sep, 1, j - 1);
        }
      case None =>
        forall j | 1 <= j ensures !OccursAt(s, sep, j) {
          OccursInSuffix(s, sep, 1, j - 1);
        }
    }
  }

  /** `s.split(sep)`: the pieces between the leftmost, non-overlapping occurrences of `sep`. */
  function Split(s: string, sep: string): (parts: seq<string>)
    requires |sep| > 0
    ensures |parts| >= 1
    decreases |s|
  {
    match Find(s, sep)
    case None => [s]
    case Some(i) => [s[..i]] + Split(s[i + |sep|..], sep)
  }

  /** `sep.join(parts)`. */
  function Join(parts: seq<string>, sep: string): string
    decreases |parts|
  {
    if parts == [] then ""
    else if |parts| == 1 then parts[0]
    else parts[0] + sep + Join(parts[1..], sep)
  }

  /** `s.split(sep)[-1]`. */
  function LastPiece(s: string, sep: string): string
    requires |sep| > 0
  {
    var parts := Split(s, sep);
    parts[|parts| - 1]
  }

  /** The notification sent for a balance reply. */
  function BalanceNotice(text: string): string {
    Prefix + LastPiece(text, Marker)
  }

  /** One step of `Split`: the piece before the leftmost occurrence, then the split of the rest. */
  lemma {:induction false} SplitAtFirst(s: string, sep: string, i: nat)
    requires |sep| > 0 && Find(s, sep) == Some(i)
    ensures i + |sep| <= |s|
    ensures Split(s, sep) == [s[..i]] + Split(s[i + |sep|..], sep)
  {
  }

  /** One step of `Join` on two or more pieces. */
  lemma {:induction false} JoinCons(head: string, tail: seq<string>, sep: string)
    requires |tail| >= 1
    ensures Join([head] + tail, sep) == head + sep + Join(tail, sep)
  {
    assert ([head] + tail)[1..] == tail;
  }

  /** Cutting out an occurrence and putting the separator back gives the text. */
  lemma {:induction false} Reassemble(s: string, sep: string, i: int)
    requires OccursAt(s, sep, i)
    ensures s[..i] + sep + s[i + |sep|..] == s
  {
    assert s[..i] + s[i..i + |sep|] + s[i + |sep|..] == s;
  }

  /** Joining the pieces back with the separator gives the original text. */
  lemma {:induction false} JoinSplit(s: string, sep: string)
    requires |sep| > 0
    ensures Join(Split(s, sep), sep) == s
    decreases |s|
  {
    var f := Find(s, sep);
    if f.Some? {
      var i := f.value;
      SplitAtFirst(s, sep, i);
      var rest := s[i + |sep|..];
      JoinSplit(rest, sep);
      JoinCons(s[..i], Split(rest, sep), sep);
      FindIsLeftmost(s, sep);
      Reassemble(s, sep, i);
    }
  }

  /** No piece of a split contains the separator. */
  lemma {:induction false} SplitPiecesAreClean(s: string, sep: string)
    requires |sep| > 0
    ensures forall k :: 0 <= k < |Split(s, sep)| ==> Absent(Split(s, sep)[k], sep)
    decreases |s|
  {
    var f := Find(s, sep);
    FindIsLeftmost(s, sep);
    if f.Some? {
      var i := f.value;
      SplitAtFirst(s, sep, i);
      var rest := s[i + |sep|..];
      SplitPiecesAreClean(rest, sep);
      forall j | OccursAt(s[..i], sep, j) ensures false {
        assert s[..i][j..j + |sep|] == s[j..j + |sep|];
        assert OccursAt(s, sep, j);
      }
    }
  }

  /** When `sep` occurs, the last piece of `s` is the last piece of what follows its leftmost occurrence. */
  lemma {:induction false} LastPieceAtFirst(s: string, sep: string, i: nat)
    requires |sep| > 0 && Find(s, sep) == Some(i)
    ensures i + |sep| <= |s|
    ensures LastPiece(s, sep) == LastPiece(s[i + |sep|..], sep)
  {
    SplitAtFirst(s, sep, i);
    var rest := Split(s[i + |sep|..], sep);
    assert ([s[..i]] + rest)[|rest|] == rest[|rest| - 1];
  }

  /** Without an occurrence, the last piece is the whole text. */
  lemma {:induction false} LastPieceWhenAbsent(s: string, sep: string)
    requires |sep| > 0 && Find(s, sep).None?
    ensures LastPiece(s, sep) == s
  {
  }

  /** A suffix of a suffix of `s` is a suffix of `s`. */
  lemma {:induction false} SuffixOfSuffix(s: string, d: nat, l: string)
    requires d <= |s| && |l| <= |s| - d && l == s[d..][|s| - d - |l|..]
    ensures l == s[|s| - |l|..]
  {
    assert s[d..][|s| - d - |l|..] == s[|s| - |l|..];
  }

  /** The last piece is a suffix of the text. */
  lemma {:induction false} LastPieceIsSuffix(s: string, sep: string)
    requires |sep| > 0
    ensures |LastPiece(s, sep)| <= |s| && LastPiece(s, sep) == s[|s| - |LastPiece(s, sep)|..]
    decreases |s|
  {
    var f := Find(s, sep);
    if f.Some? {
      var i := f.value;
      LastPieceAtFirst(s, sep, i);
      LastPieceIsSuffix(s[i + |sep|..], sep);
      SuffixOfSuffix(s, i + |sep|, LastPiece(s, sep));
    } else {
      LastPieceWhenAbsent(s, sep);
    }
  }

  /** When `sep` occurs, the last piece comes right after an occurrence of it. */
  lemma {:induction false} LastPieceIsPreceded(s: string, sep: string)
    requires |sep| > 0 && Find(s, sep).Some?
    ensures |LastPiece(s, sep)| + |sep| <= |s| && OccursAt(s, sep, |s| - |LastPiece(s, sep)| - |sep|)
    decreases |s|
  {
    var i := Find(s, sep).value;
    LastPieceAtFirst(s, sep, i);
    var t := s[i + |sep|..];
    var l := LastPiece(t, sep);
    FindIsLeftmost(s, sep);
    if Find(t, sep).Some? {
      LastPieceIsPreceded(t, sep);
      var j := |t| - |l| - |sep|;
      OccursInSuffix(s, sep, i + |sep|, j);
      assert i + |sep| + j == |s| - |l| - |sep|;
    } else {
      LastPieceWhenAbsent(t, sep);
      assert |s| - |l| - |sep| == i;
    }
  }

  /**
   * The last piece is a suffix of the text without the separator in it; it
   * is the whole text when the separator is absent, and otherwise it is
   * preceded by an occurrence of the separator.
   */
  lemma {:induction false} LastPieceShape(s: string, sep: string)
    requires |sep| > 0
    ensures var l := LastPiece(s, sep);
      && |l| <= |s| && l == s[|s| - |l|..]
      && Absent(l, sep)
      && (Absent(s, sep) ==> l == s)
      && (!Absent(s, sep) ==> OccursAt(s, sep, |s| - |l| - |sep|))
  {
    LastPieceIsSuffix(s, sep);
    FindIsLeftmost(s, sep);
    if Find(s, sep).Some? {
      LastPieceIsPreceded(s, sep);
    } else {
      LastPieceWhenAbsent(s, sep);
    }
    SplitPiecesAreClean(s, sep);
  }

  /** The marker ends in its only ':', so no proper prefix of it is also a suffix. */
  lemma MarkerEndsInItsOnlyColon()
    ensures |Marker| == 15 && Marker[14] == ':'
    ensures forall i :: 0 <= i < 14 ==> Marker[i] != ':'
  {
  }

  /** The characters of an occurrence are those of the separator. */
  lemma {:induction false} CharOfOccurrence(s: string, sep: string, i: int, k: int)
    requires OccursAt(s, sep, i) && 0 <= k < |sep|
    ensures s[i + k] == sep[k]
  {
    assert s[i..i + |sep|][k] == s[i + k];
  }

  /** Two occurrences of the marker never overlap. */
  lemma {:induction false} MarkersDoNotOverlap(s: string, i: int, j: int)
    requires OccursAt(s, Marker, i) && OccursAt(s, Marker, j) && i < j
    ensures i + |Marker| <= j
  {
    MarkerEndsInItsOnlyColon();
    CharOfOccurrence(s, Marker, i, 14);
    if j <= i + 14 {
      CharOfOccurrence(s, Marker, j, i + 14 - j);
      assert false;
    }
  }

  /** `v` is the text after the last marker, or the whole text when there is no marker. */
  ghost predicate AfterLastMarker(text: string, v: string) {
    || (Absent(text, Marker) && v == text)
    || exists i :: && OccursAt(text, Marker, i)
                   && (forall j :: OccursAt(text, Marker, j) ==> j <= i)
                   && v == text[i + |Marker|..]
  }

  /** The value the balance notice reports is the text after the LAST "ACCESS_BALANCE:". */
  lemma {:induction false} BalanceIsAfterLastMarker(text: string)
    ensures AfterLastMarker(text, LastPiece(text, Marker))
  {
    LastPieceShape(text, Marker);
    var l := LastPiece(text, Marker);
    if !Absent(text, Marker) {
      var i := |text| - |l| - |Marker|;
      forall j | OccursAt(text, Marker, j) ensures j <= i {
        if j > i {
          MarkersDoNotOverlap(text, i, j);
          OccursInSuffix(text, Marker, i + |Marker|, j - i - |Marker|);
        }
      }
      assert l == text[i + |Marker|..];
    }
  }

  /** A reply "ACCESS_BALANCE:42.50" is announced as "Баланс: 42.50". */
  lemma BalanceOfTypicalReply()
    ensures BalanceNotice("ACCESS_BALANCE:42.50") == "Баланс: 42.50"
  {
    var text := "ACCESS_BALANCE:42.50";
    assert text[..|Marker|] == Marker;
    assert Find(text, Marker) == Some(0);
    LastPieceAtFirst(text, Marker, 0);
    assert text[15..] == "42.50";
    assert Find("42.50", Marker) == None;
  }
}
