/** The plain recursive edit distance (`src/manual.py`) that the
    trampolined version is compared against. */
module Manual {

  function Min3(a: int, b: int, c: int): (m: int)
    ensures m <= a && m <= b && m <= c
    ensures m == a || m == b || m == c
  {
    if a <= b && a <= c then a else if b <= c then b else c
  }

  /** `editDistanceImpl(first, second, f, s)`: the edit distance between the
      suffixes `first[f:]` and `second[s:]`. */
  function EditDistanceImpl(first: string, second: string, f: nat, s: nat): (d: int)
    requires f <= |first| && s <= |second|
    ensures 0 <= d
    ensures d <= Max(|first| - f, |second| - s)
    ensures Diff(|first| - f, |second| - s) <= d
    decreases (|first| - f) + (|second| - s)
  {
    if f == |first| then |second| - s
    else if s == |second| then |first| - f
    else if first[f] == second[s] then EditDistanceImpl(first, second, f + 1, s + 1)
    else
      var deleteFirst := EditDistanceImpl(first, second, f + 1, s) + 1;
      var deleteSecond := EditDistanceImpl(first, second, f, s + 1) + 1;
      var replace := EditDistanceImpl(first, second, f + 1, s + 1) + 1;
      Min3(deleteFirst, deleteSecond, replace)
  }

  /** `editDistance(first, second)`. */
  function EditDistance(first: string, second: string): (d: int)
    ensures 0 <= d <= Max(|first|, |second|)
    ensures Diff(|first|, |second|) <= d
  {
    EditDistanceImpl(first, second, 0, 0)
  }

  function Max(a: int, b: int): int {
    if a < b then b else a
  }

  function Diff(a: int, b: int): int {
    if a < b then b - a else a - b
  }

  /** Levenshtein distance stated on the strings themselves, by their first
      characters: the textbook definition. */
  function Levenshtein(a: string, b: string): nat
    decreases |a| + |b|
  {
    if a == [] then |b|
    else if b == [] then |a|
    else if a[0] == b[0] then Levenshtein(a[1..], b[1..])
    else
      var x, y, z := Levenshtein(a[1..], b), Levenshtein(a, b[1..]), Levenshtein(a[1..], b[1..]);
      if x <= y && x <= z then x + 1 else if y <= z then y + 1 else z + 1
  }

  /** The index-based recursion computes the textbook distance of the suffixes. */
  lemma {:induction false} EditDistanceIsLevenshtein(first: string, second: string, f: nat, s: nat)
    requires f <= |first| && s <= |second|
    ensures EditDistanceImpl(first, second, f, s) == Levenshtein(first[f..], second[s..])
    decreases (|first| - f) + (|second| - s)
  {
    var a, b := first[f..], second[s..];
    if f < |first| && s < |second| {
      assert a[0] == first[f] && b[0] == second[s];
      assert a[1..] == first[f + 1..] && b[1..] == second[s + 1..];
      EditDistanceIsLevenshtein(first, second, f + 1, s + 1);
      if first[f] != second[s] {
        EditDistanceIsLevenshtein(first, second, f + 1, s);
        EditDistanceIsLevenshtein(first, second, f, s + 1);
      }
    }
  }

  /** Swapping the two strings does not change the distance. */
  lemma {:induction false} EditDistanceSymmetric(first: string, second: string, f: nat, s: nat)
    requires f <= |first| && s <= |second|
    ensures EditDistanceImpl(first, second, f, s) == EditDistanceImpl(second, first, s, f)
    decreases (|first| - f) + (|second| - s)
  {
    if f < |first| && s < |second| {
      EditDistanceSymmetric(first, second, f + 1, s + 1);
      if first[f] != second[s] {
        EditDistanceSymmetric(first, second, f + 1, s);
        EditDistanceSymmetric(first, second, f, s + 1);
      }
    }
  }

  /** A string is at distance 0 from itself. */
  lemma {:induction false} EditDistanceSelf(x: string, f: nat)
    requires f <= |x|
    ensures EditDistanceImpl(x, x, f, f) == 0
    decreases |x| - f
  {
    if f < |x| {
      EditDistanceSelf(x, f + 1);
    }
  }

  /** Equal characters at `f` and `s`: the distance is the one for `(f+1, s+1)`. */
  lemma EditDistanceMatch(first: string, second: string, f: nat, s: nat)
    requires f < |first| && s < |second| && first[f] == second[s]
    ensures EditDistanceImpl(first, second, f, s) == EditDistanceImpl(first, second, f + 1, s + 1)
  {
  }

  /** Different characters: one more than the cheapest of deleting from
      either string or replacing. */
  lemma EditDistanceMismatch(first: string, second: string, f: nat, s: nat)
    requires f < |first| && s < |second| && first[f] != second[s]
    ensures var d := EditDistanceImpl(first, second, f, s);
      var a := EditDistanceImpl(first, second, f + 1, s);
      var b := EditDistanceImpl(first, second, f, s + 1);
      var c := EditDistanceImpl(first, second, f + 1, s + 1);
      && (d == a + 1 || d == b + 1 || d == c + 1)
      && d <= a + 1 && d <= b + 1 && d <= c + 1
  {
  }

  /** An exhausted string: the distance is the length of what is left of the other. */
  lemma EditDistanceExhausted(first: string, second: string, f: nat, s: nat)
    requires f <= |first| && s <= |second|
    ensures f == |first| ==> EditDistanceImpl(first, second, f, s) == |second| - s
    ensures f < |first| && s == |second| ==> EditDistanceImpl(first, second, f, s) == |first| - f
  {
  }

  /** Row 6 of the table of suffix distances for "kitten" and "sitting". */
  lemma KittenSittingRow6(k: string, t: string)
    requires k == "kitten" && t == "sitting"
    ensures EditDistanceImpl(k, t, 6, 0) == 7
    ensures EditDistanceImpl(k, t, 6, 1) == 6
    ensures EditDistanceImpl(k, t, 6, 2) == 5
    ensures EditDistanceImpl(k, t, 6, 3) == 4
    ensures EditDistanceImpl(k, t, 6, 4) == 3
    ensures EditDistanceImpl(k, t, 6, 5) == 2
    ensures EditDistanceImpl(k, t, 6, 6) == 1
    ensures EditDistanceImpl(k, t, 6, 7) == 0
  {
    EditDistanceExhausted(k, t, 6, 7);
    EditDistanceExhausted(k, t, 6, 6);
    EditDistanceExhausted(k, t, 6, 5);
    EditDistanceExhausted(k, t, 6, 4);
    EditDistanceExhausted(k, t, 6, 3);
    EditDistanceExhausted(k, t, 6, 2);
    EditDistanceExhausted(k, t, 6, 1);
    EditDistanceExhausted(k, t, 6, 0);
  }

  /** Row 5 of the table of suffix distances for "kitten" and "sitting". */
  lemma KittenSittingRow5(k: string, t: string)
    requires k == "kitten" && t == "sitting"
    ensures EditDistanceImpl(k, t, 5, 0) == 6
    ensures EditDistanceImpl(k, t, 5, 1) == 5
    ensures EditDistanceImpl(k, t, 5, 2) == 4
    ensures EditDistanceImpl(k, t, 5, 3) == 3
    ensures EditDistanceImpl(k, t, 5, 4) == 2
    ensures EditDistanceImpl(k, t, 5, 5) == 1
    ensures EditDistanceImpl(k, t, 5, 6) == 1
    ensures EditDistanceImpl(k, t, 5, 7) == 1
  {
    KittenSittingRow6(k, t);
    EditDistanceExhausted(k, t, 5, 7);
    EditDistanceMismatch(k, t, 5, 6);
    EditDistanceMatch(k, t, 5, 5);
    EditDistanceMismatch(k, t, 5, 4);
    EditDistanceMismatch(k, t, 5, 3);
    EditDistanceMismatch(k, t, 5, 2);
    EditDistanceMismatch(k, t, 5, 1);
    EditDistanceMismatch(k, t, 5, 0);
  }

  /** Row 4 of the table of suffix distances for "kitten" and "sitting". */
  lemma KittenSittingRow4(k: string, t: string)
    requires k == "kitten" && t == "sitting"
    ensures EditDistanceImpl(k, t, 4, 0) == 6
    ensures EditDistanceImpl(k, t, 4, 1) == 5
    ensures EditDistanceImpl(k, t, 4, 2) == 4
    ensures EditDistanceImpl(k, t, 4, 3) == 3
    ensures EditDistanceImpl(k, t, 4, 4) == 2
    ensures EditDistanceImpl(k, t, 4, 5) == 2
    ensures EditDistanceImpl(k, t, 4, 6) == 2
    ensures EditDistanceImpl(k, t, 4, 7) == 2
  {
    KittenSittingRow5(k, t);
    EditDistanceExhausted(k, t, 4, 7);
    EditDistanceMismatch(k, t, 4, 6);
    EditDistanceMismatch(k, t, 4, 5);
    EditDistanceMismatch(k, t, 4, 4);
    EditDistanceMismatch(k, t, 4, 3);
    EditDistanceMismatch(k, t, 4, 2);
    EditDistanceMismatch(k, t, 4, 1);
    EditDistanceMismatch(k, t, 4, 0);
  }

  /** Row 3 of the table of suffix distances for "kitten" and "sitting". */
  lemma KittenSittingRow3(k: string, t: string)
    requires k == "kitten" && t == "sitting"
    ensures EditDistanceImpl(k, t, 3, 0) == 5
    ensures EditDistanceImpl(k, t, 3, 1) == 4
    ensures EditDistanceImpl(k, t, 3, 2) == 3
    ensures EditDistanceImpl(k, t, 3, 3) == 2
    ensures EditDistanceImpl(k, t, 3, 4) == 3
    ensures EditDistanceImpl(k, t, 3, 5) == 3
    ensures EditDistanceImpl(k, t, 3, 6) == 3
    ensures EditDistanceImpl(k, t, 3, 7) == 3
  {
    KittenSittingRow4(k, t);
    EditDistanceExhausted(k, t, 3, 7);
    EditDistanceMismatch(k, t, 3, 6);
    EditDistanceMismatch(k, t, 3, 5);
    EditDistanceMismatch(k, t, 3, 4);
    EditDistanceMatch(k, t, 3, 3);
    EditDistanceMatch(k, t, 3, 2);
    EditDistanceMismatch(k, t, 3, 1);
    EditDistanceMismatch(k, t, 3, 0);
  }

  /** Row 2 of the table of suffix distances for "kitten" and "sitting". */
  lemma KittenSittingRow2(k: string, t: string)
    requires k == "kitten" && t == "sitting"
    ensures EditDistanceImpl(k, t, 2, 0) == 4
    ensures EditDistanceImpl(k, t, 2, 1) == 3
    ensures EditDistanceImpl(k, t, 2, 2) == 2
    ensures EditDistanceImpl(k, t, 2, 3) == 3
    ensures EditDistanceImpl(k, t, 2, 4) == 4
    ensures EditDistanceImpl(k, t, 2, 5) == 4
    ensures EditDistanceImpl(k, t, 2, 6) == 4
    ensures EditDistanceImpl(k, t, 2, 7) == 4
  {
    KittenSittingRow3(k, t);
    EditDistanceExhausted(k, t, 2, 7);
    EditDistanceMismatch(k, t, 2, 6);
    EditDistanceMismatch(k, t, 2, 5);
    EditDistanceMismatch(k, t, 2, 4);
    EditDistanceMatch(k, t, 2, 3);
    EditDistanceMatch(k, t, 2, 2);
    EditDistanceMismatch(k, t, 2, 1);
    EditDistanceMismatch(k, t, 2, 0);
  }

  /** Row 1 of the table of suffix distances for "kitten" and "sitting". */
  lemma KittenSittingRow1(k: string, t: string)
    requires k == "kitten" && t == "sitting"
    ensures EditDistanceImpl(k, t, 1, 0) == 3
    ensures EditDistanceImpl(k, t, 1, 1) == 2
    ensures EditDistanceImpl(k, t, 1, 2) == 3
    ensures EditDistanceImpl(k, t, 1, 3) == 4
    ensures EditDistanceImpl(k, t, 1, 4) == 4
    ensures EditDistanceImpl(k, t, 1, 5) == 5
    ensures EditDistanceImpl(k, t, 1, 6) == 5
    ensures EditDistanceImpl(k, t, 1, 7) == 5
  {
    KittenSittingRow2(k, t);
    EditDistanceExhausted(k, t, 1, 7);
    EditDistanceMismatch(k, t, 1, 6);
    EditDistanceMismatch(k, t, 1, 5);
    EditDistanceMatch(k, t, 1, 4);
    EditDistanceMismatch(k, t, 1, 3);
    EditDistanceMismatch(k, t, 1, 2);
    EditDistanceMatch(k, t, 1, 1);
    EditDistanceMismatch(k, t, 1, 0);
  }

  /** Row 0 of the table of suffix distances for "kitten" and "sitting". */
  lemma KittenSittingRow0(k: string, t: string)
    requires k == "kitten" && t == "sitting"
    ensures EditDistanceImpl(k, t, 0, 0) == 3
    ensures EditDistanceImpl(k, t, 0, 1) == 3
    ensures EditDistanceImpl(k, t, 0, 2) == 4
    ensures EditDistanceImpl(k, t, 0, 3) == 5
    ensures EditDistanceImpl(k, t, 0, 4) == 5
    ensures EditDistanceImpl(k, t, 0, 5) == 6
    ensures EditDistanceImpl(k, t, 0, 6) == 6
    ensures EditDistanceImpl(k, t, 0, 7) == 6
  {
    KittenSittingRow1(k, t);
    EditDistanceExhausted(k, t, 0, 7);
    EditDistanceMismatch(k, t, 0, 6);
    EditDistanceMismatch(k, t, 0, 5);
    EditDistanceMismatch(k, t, 0, 4);
    EditDistanceMismatch(k, t, 0, 3);
    EditDistanceMismatch(k, t, 0, 2);
    EditDistanceMismatch(k, t, 0, 1);
    EditDistanceMismatch(k, t, 0, 0);
  }

  /** The example in the docstring of `editDistance`. */
  lemma KittenSitting()
    ensures EditDistance("kitten", "sitting") == 3
  {
    KittenSittingRow0("kitten", "sitting");
  }
}
