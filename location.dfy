/**
 * The two helpers json2stems.py applies to a module's packed location string
 * `<file-id>,<start-line>:<start-col>,<end-line>:<end-col>`: the file-id
 * prefix (`get_file_id`) and the pair of line numbers found by the regular
 * expression `[a-z],(\d+):\d+,(\d+):\d+` (`get_line_range`).
 */
module Location {
  import opened Wrappers
  import opened Decimal

  /** `loc.split(',')[0]`: everything before the first comma. */
  function GetFileId(loc: string): (r: string)
    ensures r <= loc
    ensures ',' !in r
    ensures r == loc || loc[|r|] == ','
  {
    if loc == [] || loc[0] == ',' then [] else [loc[0]] + GetFileId(loc[1..])
  }

  /** The three properties above single out one prefix: GetFileId is the only string with them. */
  lemma FileIdUnique(loc: string, p: string)
    requires p <= loc && ',' !in p && (p == loc || loc[|p|] == ',')
    ensures p == GetFileId(loc)
  {
  }

  predicate IsLower(c: char) {
    'a' <= c <= 'z'
  }

  /** How many digits a greedy `\d+` (or `\d*`) consumes at position i. */
  function DigitRun(s: string, i: nat): (n: nat)
    requires i <= |s|
    ensures i + n <= |s|
    ensures forall k :: i <= k < i + n ==> IsDigit(s[k])
    ensures i + n == |s| || !IsDigit(s[i + n])
    decreases |s| - i
  {
    if i < |s| && IsDigit(s[i]) then 1 + DigitRun(s, i + 1) else 0
  }

  /**
   * One `\d+` at position p followed by the literal c: the position after c,
   * or None. The `\d+` takes the whole digit run, as it must, since c is not
   * a digit.
   */
  function DigitsThen(s: string, p: nat, c: char): (r: Option<nat>)
    requires p <= |s|
    ensures r.Some? ==> p + 2 <= r.value <= |s| && DigitsAt(s, p, r.value - 1 - p) && s[r.value - 1] == c
  {
    var q := p + DigitRun(s, p);
    if q == p || q == |s| || s[q] != c then None else Some(q + 1)
  }

  /** Where the two groups of a match lie: `match.span(1)` and `match.span(2)`. */
  datatype Groups = Groups(lo1: nat, hi1: nat, lo2: nat, hi2: nat)

  /**
   * The match of `[a-z],(\d+):\d+,(\d+):\d+` that starts exactly at position
   * i, given by the spans of its two groups. Every `\d+` but the last is
   * followed by a non-digit literal, so each of them must take its whole
   * digit run: the match at a position is unique and backtracking never
   * finds another.
   */
  function MatchAt(s: string, i: nat): Option<Groups> {
    if i + 2 > |s| || !IsLower(s[i]) || s[i + 1] != ',' then None
    else
      var a := DigitsThen(s, i + 2, ':');
      if a.None? then None
      else
        var b := DigitsThen(s, a.value, ',');
        if b.None? then None
        else
          var c := DigitsThen(s, b.value, ':');
          if c.None? || DigitRun(s, c.value) == 0 then None
          else Some(Groups(i + 2, a.value - 1, b.value, c.value - 1))
  }

  /** Whatever MatchAt finds has two groups of digits. */
  lemma MatchAtGroups(s: string, i: nat)
    requires MatchAt(s, i).Some?
    ensures GroupsIn(s, MatchAt(s, i).value)
  {
  }

  /** Both groups are non-empty runs of digits inside s. */
  predicate GroupsIn(s: string, g: Groups) {
    g.lo1 <= g.hi1 && DigitsAt(s, g.lo1, g.hi1 - g.lo1) && g.lo2 <= g.hi2 && DigitsAt(s, g.lo2, g.hi2 - g.lo2)
  }

  /** `int(match.group(1)), int(match.group(2))` */
  function GroupValues(s: string, g: Groups): (nat, nat)
    requires GroupsIn(s, g)
  {
    assert AllDigits(s[g.lo1..g.hi1]);
    assert AllDigits(s[g.lo2..g.hi2]);
    (Value(s[g.lo1..g.hi1]), Value(s[g.lo2..g.hi2]))
  }

  /** A run of n >= 1 digits, one `\d+`, starts at position p of s. */
  predicate DigitsAt(s: string, p: nat, n: nat) {
    n > 0 && p + n <= |s| && forall k :: p <= k < p + n ==> IsDigit(s[k])
  }

  /** The character c appears in s at position p. */
  predicate CharAt(s: string, p: nat, c: char) {
    p < |s| && s[p] == c
  }

  /**
   * The pattern `[a-z],(\d+):\d+,(\d+):\d+` occurs at position i of s, its
   * four `\d+` taking n1, n2, n3 and n4 digits, laid out one after the
   * other: a letter, `,`, n1 digits, `:`, n2 digits, `,`, n3 digits, `:`,
   * n4 digits.
   */
  predicate OccursAt(s: string, i: nat, n1: nat, n2: nat, n3: nat, n4: nat) {
    && i < |s| && IsLower(s[i])
    && CharAt(s, i + 1, ',')
    && DigitsAt(s, i + 2, n1)
    && CharAt(s, i + 2 + n1, ':')
    && DigitsAt(s, i + 3 + n1, n2)
    && CharAt(s, i + 3 + n1 + n2, ',')
    && DigitsAt(s, i + 4 + n1 + n2, n3)
    && CharAt(s, i + 4 + n1 + n2 + n3, ':')
    && DigitsAt(s, i + 5 + n1 + n2 + n3, n4)
  }

  /** The group spans of that occurrence: its first and third digit runs. */
  function OccurrenceGroups(i: nat, n1: nat, n2: nat, n3: nat): Groups {
    Groups(i + 2, i + 2 + n1, i + 4 + n1 + n2, i + 4 + n1 + n2 + n3)
  }

  /** The two line numbers of that occurrence: its first and third digit runs, read as numbers. */
  function OccurrenceLines(s: string, i: nat, n1: nat, n2: nat, n3: nat, n4: nat): (nat, nat)
    requires OccursAt(s, i, n1, n2, n3, n4)
  {
    GroupValues(s, OccurrenceGroups(i, n1, n2, n3))
  }

  ghost predicate Occurs(s: string, i: nat) {
    exists n1, n2, n3, n4 :: OccursAt(s, i, n1, n2, n3, n4)
  }

  /** A digit run followed by a non-digit is exactly what DigitRun measures. */
  lemma {:induction false} DigitRunExact(s: string, i: nat, n: nat)
    requires i + n < |s|
    requires forall k :: i <= k < i + n ==> IsDigit(s[k])
    requires !IsDigit(s[i + n])
    ensures DigitRun(s, i) == n
    decreases n
  {
    if n > 0 {
      DigitRunExact(s, i + 1, n - 1);
    }
  }

  /** What MatchAt finds is an occurrence, and its groups are that occurrence's first and third digit runs. */
  lemma MatchAtSound(s: string, i: nat)
    requires MatchAt(s, i).Some?
    ensures Occurs(s, i)
    ensures exists n1, n2, n3, n4 ::
      OccursAt(s, i, n1, n2, n3, n4) && MatchAt(s, i).value == OccurrenceGroups(i, n1, n2, n3)
  {
    var a := DigitsThen(s, i + 2, ':').value;
    var b := DigitsThen(s, a, ',').value;
    var c := DigitsThen(s, b, ':').value;
    var n1, n2, n3, n4 := a - 1 - (i + 2), b - 1 - a, c - 1 - b, DigitRun(s, c);
    assert OccursAt(s, i, n1, n2, n3, n4);
    assert MatchAt(s, i).value == OccurrenceGroups(i, n1, n2, n3);
  }

  /** Every occurrence at i is the one MatchAt finds, with that occurrence's first and third digit runs as groups. */
  lemma MatchAtComplete(s: string, i: nat, n1: nat, n2: nat, n3: nat, n4: nat)
    requires OccursAt(s, i, n1, n2, n3, n4)
    ensures MatchAt(s, i) == Some(OccurrenceGroups(i, n1, n2, n3))
  {
    var a := i + 3 + n1;
    var b := a + n2 + 1;
    var c := b + n3 + 1;
    DigitsThenExact(s, i + 2, n1, ':');
    DigitsThenExact(s, a, n2, ',');
    DigitsThenExact(s, b, n3, ':');
    MatchAtSteps(s, i, a, b, c);
    assert Groups(i + 2, a - 1, b, c - 1) == OccurrenceGroups(i, n1, n2, n3);
  }

  /** MatchAt once its three `\d+` followed by a literal have been found, ending at a, b and c. */
  lemma MatchAtSteps(s: string, i: nat, a: nat, b: nat, c: nat)
    requires i + 2 <= |s| && IsLower(s[i]) && s[i + 1] == ','
    requires DigitsThen(s, i + 2, ':') == Some(a)
    requires a <= |s| && DigitsThen(s, a, ',') == Some(b)
    requires b <= |s| && DigitsThen(s, b, ':') == Some(c)
    requires c <= |s| && DigitRun(s, c) > 0
    ensures MatchAt(s, i) == Some(Groups(i + 2, a - 1, b, c - 1))
  {
  }

  /** A digit run followed by the literal c is what DigitsThen accepts. */
  lemma DigitsThenExact(s: string, p: nat, n: nat, c: char)
    requires DigitsAt(s, p, n) && CharAt(s, p + n, c) && !IsDigit(c)
    ensures DigitsThen(s, p, c) == Some(p + n + 1)
  {
    DigitRunExact(s, p, n);
  }

  /** At a given position the pattern can occur in only one way, except for the length of the last run. */
  lemma OccurrenceUnique(s: string, i: nat, n1: nat, n2: nat, n3: nat, n4: nat, m1: nat, m2: nat, m3: nat, m4: nat)
    requires OccursAt(s, i, n1, n2, n3, n4) && OccursAt(s, i, m1, m2, m3, m4)
    ensures n1 == m1 && n2 == m2 && n3 == m3
  {
    RunUnique(s, i + 2, n1, m1);
    RunUnique(s, i + 3 + n1, n2, m2);
    RunUnique(s, i + 4 + n1 + n2, n3, m3);
  }

  /** Two digit runs from the same position, each followed by a non-digit, have the same length. */
  lemma RunUnique(s: string, p: nat, n: nat, m: nat)
    requires DigitsAt(s, p, n) && p + n < |s| && !IsDigit(s[p + n])
    requires DigitsAt(s, p, m) && p + m < |s| && !IsDigit(s[p + m])
    ensures n == m
  {
    DigitRunExact(s, p, n);
    DigitRunExact(s, p, m);
  }


  /** `re.search`: the left-most position from i on where the pattern matches, with its groups. */
  function FindFrom(s: string, i: nat): (r: Option<(nat, Groups)>)
    ensures r.Some? ==> i <= r.value.0 < |s| && MatchAt(s, r.value.0) == Some(r.value.1)
    ensures forall j :: i <= j < (if r.Some? then r.value.0 else |s|) ==> MatchAt(s, j).None?
    decreases |s| - i
  {
    if i >= |s| then None
    else
      var m := MatchAt(s, i);
      if m.Some? then Some((i, m.value)) else FindFrom(s, i + 1)
  }

  /** `get_line_range`: the start and end line of the left-most match, or (0, 0) when there is none. */
  function GetLineRange(loc: string): (nat, nat) {
    match FindFrom(loc, 0)
    case Some((i, g)) => MatchAtGroups(loc, i); GroupValues(loc, g)
    case None => (0, 0)
  }

  /**
   * The result comes from the left-most occurrence of the pattern: its first
   * and third digit runs, whatever the two column runs hold.
   */
  lemma LineRangeOfFirstOccurrence(s: string, i: nat, n1: nat, n2: nat, n3: nat, n4: nat)
    requires OccursAt(s, i, n1, n2, n3, n4)
    requires forall j :: 0 <= j < i ==> !Occurs(s, j)
    ensures GetLineRange(s) == OccurrenceLines(s, i, n1, n2, n3, n4)
  {
    MatchAtComplete(s, i, n1, n2, n3, n4);
    var r := FindFrom(s, 0);
    assert r.Some? && r.value.0 <= i;
    if r.value.0 < i {
      MatchAtSound(s, r.value.0);
      assert false;
    }
  }

  /** Without any occurrence of the pattern the line range is (0, 0). */
  lemma LineRangeWithoutOccurrence(s: string)
    requires forall j :: 0 <= j < |s| ==> !Occurs(s, j)
    ensures GetLineRange(s) == (0, 0)
  {
    var r := FindFrom(s, 0);
    if r.Some? {
      MatchAtSound(s, r.value.0);
      assert false;
    }
  }


  /** An occurrence needs a lower-case letter directly before a comma. */
  lemma OccursNeedsLetterComma(s: string, j: nat)
    requires Occurs(s, j)
    ensures j + 1 < |s| && IsLower(s[j]) && s[j + 1] == ','
  {
  }

  /** The packed location `<fid>,<d1>:<d2>,<d3>:<d4><tail>`. */
  function PackedLocation(fid: string, d1: string, d2: string, d3: string, d4: string, tail: string): string {
    fid + ([','] + (d1 + ([':'] + (d2 + ([','] + (d3 + ([':'] + (d4 + tail))))))))
  }

  /** The file-id of fid followed by a comma is fid. */
  lemma LocationFileId(fid: string, rest: string)
    requires ',' !in fid && |rest| > 0 && rest[0] == ','
    ensures GetFileId(fid + rest) == fid
  {
    var s := fid + rest;
    assert s[..|fid|] == fid && s[|fid|] == ',';
    FileIdUnique(s, fid);
  }

  /** In a location whose file-id ends in a lower-case letter the pattern occurs right at that letter. */
  lemma LocationOccurs(fid: string, d1: string, d2: string, d3: string, d4: string, tail: string)
    requires |fid| > 0 && IsLower(fid[|fid| - 1])
    requires |d1| > 0 && |d2| > 0 && |d3| > 0 && |d4| > 0
    requires AllDigits(d1) && AllDigits(d2) && AllDigits(d3) && AllDigits(d4)
    ensures OccursAt(PackedLocation(fid, d1, d2, d3, d4, tail), |fid| - 1, |d1|, |d2|, |d3|, |d4|)
    ensures OccurrenceLines(PackedLocation(fid, d1, d2, d3, d4, tail), |fid| - 1, |d1|, |d2|, |d3|, |d4|)
      == (Value(d1), Value(d3))
  {
    LocationPieces(fid, d1, d2, d3, d4, tail);
    LaidOutOccurs(PackedLocation(fid, d1, d2, d3, d4, tail), |fid| - 1, d1, d2, d3, d4);
  }

  /** From position i + 1 on, s holds `,<d1>:<d2>,<d3>:<d4>`. */
  predicate LaidOut(s: string, i: nat, d1: string, d2: string, d3: string, d4: string) {
    && CharAt(s, i + 1, ',')
    && Holds(s, i + 2, d1)
    && CharAt(s, i + 2 + |d1|, ':')
    && Holds(s, i + 3 + |d1|, d2)
    && CharAt(s, i + 3 + |d1| + |d2|, ',')
    && Holds(s, i + 4 + |d1| + |d2|, d3)
    && CharAt(s, i + 4 + |d1| + |d2| + |d3|, ':')
    && Holds(s, i + 5 + |d1| + |d2| + |d3|, d4)
  }

  /** s holds d, character by character, from position p on. */
  predicate Holds(s: string, p: nat, d: string) {
    p + |d| <= |s| && forall k :: p <= k < p + |d| ==> s[k] == d[k - p]
  }

  /** Digit strings laid out after a lower-case letter form an occurrence whose line numbers are those of d1 and d3. */
  lemma LaidOutOccurs(s: string, i: nat, d1: string, d2: string, d3: string, d4: string)
    requires i < |s| && IsLower(s[i]) && LaidOut(s, i, d1, d2, d3, d4)
    requires |d1| > 0 && |d2| > 0 && |d3| > 0 && |d4| > 0
    requires AllDigits(d1) && AllDigits(d2) && AllDigits(d3) && AllDigits(d4)
    ensures OccursAt(s, i, |d1|, |d2|, |d3|, |d4|)
    ensures OccurrenceLines(s, i, |d1|, |d2|, |d3|, |d4|) == (Value(d1), Value(d3))
  {
    LaidOutOccursAt(s, i, d1, d2, d3, d4);
    LaidOutLines(s, i, |d1|, |d2|, |d3|, |d4|, d1, d3);
  }

  /** The line numbers of an occurrence whose first and third runs are d1 and d3. */
  lemma LaidOutLines(s: string, i: nat, n1: nat, n2: nat, n3: nat, n4: nat, d1: string, d3: string)
    requires OccursAt(s, i, n1, n2, n3, n4) && n1 == |d1| && n3 == |d3|
    requires Holds(s, i + 2, d1) && Holds(s, i + 4 + n1 + n2, d3)
    ensures AllDigits(d1) && AllDigits(d3)
    ensures OccurrenceLines(s, i, n1, n2, n3, n4) == (Value(d1), Value(d3))
  {
    PieceSlice(s, i + 2, d1);
    PieceSlice(s, i + 4 + n1 + n2, d3);
    OccurrenceLinesOf(s, i, n1, n2, n3, n4, d1, d3);
  }

  lemma LaidOutOccursAt(s: string, i: nat, d1: string, d2: string, d3: string, d4: string)
    requires i < |s| && IsLower(s[i]) && LaidOut(s, i, d1, d2, d3, d4)
    requires |d1| > 0 && |d2| > 0 && |d3| > 0 && |d4| > 0
    requires AllDigits(d1) && AllDigits(d2) && AllDigits(d3) && AllDigits(d4)
    ensures OccursAt(s, i, |d1|, |d2|, |d3|, |d4|)
  {
    PieceDigits(s, i + 2, d1);
    PieceDigits(s, i + 3 + |d1|, d2);
    PieceDigits(s, i + 4 + |d1| + |d2|, d3);
    PieceDigits(s, i + 5 + |d1| + |d2| + |d3|, d4);
  }

  /** A non-empty digit string that s holds from position p on is a digit run there. */
  lemma PieceDigits(s: string, p: nat, d: string)
    requires |d| > 0 && AllDigits(d) && Holds(s, p, d)
    ensures DigitsAt(s, p, |d|)
  {
    PieceSlice(s, p, d);
  }

  /** A string that s holds from position p on is the slice of s there. */
  lemma PieceSlice(s: string, p: nat, d: string)
    requires Holds(s, p, d)
    ensures s[p..p + |d|] == d
  {
  }

  /** Where each piece of a location sits. */
  lemma LocationPieces(fid: string, d1: string, d2: string, d3: string, d4: string, tail: string)
    requires |fid| > 0
    ensures PackedLocation(fid, d1, d2, d3, d4, tail)[|fid| - 1] == fid[|fid| - 1]
    ensures LaidOut(PackedLocation(fid, d1, d2, d3, d4, tail), |fid| - 1, d1, d2, d3, d4)
  {
  }

  lemma OccurrenceLinesOf(s: string, i: nat, n1: nat, n2: nat, n3: nat, n4: nat, d1: string, d3: string)
    requires OccursAt(s, i, n1, n2, n3, n4)
    requires s[i + 2..i + 2 + n1] == d1 && s[i + 4 + n1 + n2..i + 4 + n1 + n2 + n3] == d3
    ensures AllDigits(d1) && AllDigits(d3)
    ensures OccurrenceLines(s, i, n1, n2, n3, n4) == (Value(d1), Value(d3))
  {
  }

  /** No occurrence can start inside a comma-free prefix, except at its last character. */
  lemma NoOccurrenceInFileId(s: string, fid: string)
    requires fid <= s && ',' !in fid
    ensures forall j :: 0 <= j < |fid| - 1 ==> !Occurs(s, j)
  {
    forall j | 0 <= j < |fid| - 1 ensures !Occurs(s, j) {
      if Occurs(s, j) {
        OccursNeedsLetterComma(s, j);
      }
    }
  }

  /**
   * A location of the form `<fid>,<d1>:<d2>,<d3>:<d4><tail>` whose file-id
   * ends in a lower-case letter: its file-id is that prefix, and its line
   * range is the start and end line whatever the two columns and the tail
   * hold.
   */
  lemma LocationFields(fid: string, d1: string, d2: string, d3: string, d4: string, tail: string)
    requires |fid| > 0 && ',' !in fid && IsLower(fid[|fid| - 1])
    requires |d1| > 0 && |d2| > 0 && |d3| > 0 && |d4| > 0
    requires AllDigits(d1) && AllDigits(d2) && AllDigits(d3) && AllDigits(d4)
    ensures GetFileId(PackedLocation(fid, d1, d2, d3, d4, tail)) == fid
    ensures GetLineRange(PackedLocation(fid, d1, d2, d3, d4, tail)) == (Value(d1), Value(d3))
  {
    var s := PackedLocation(fid, d1, d2, d3, d4, tail);
    LocationFileId(fid, s[|fid|..]);
    assert s == fid + s[|fid|..];
    LocationOccurs(fid, d1, d2, d3, d4, tail);
    NoOccurrenceInFileId(s, fid);
    LineRangeOfFirstOccurrence(s, |fid| - 1, |d1|, |d2|, |d3|, |d4|);
  }

  /**
   * A location of the form `<fid>,<d1>:<d2>,<d3>:<d4>`, with nothing after
   * the last column, whose file-id does not end in a lower-case letter has
   * no line range: no position of it can start the pattern.
   */
  lemma DigitEndedFileIdHasNoLines(fid: string, d1: string, d2: string, d3: string, d4: string)
    requires |fid| > 0 && ',' !in fid && !IsLower(fid[|fid| - 1])
    requires |d1| > 0 && |d2| > 0 && |d3| > 0 && |d4| > 0
    requires AllDigits(d1) && AllDigits(d2) && AllDigits(d3) && AllDigits(d4)
    ensures GetFileId(PackedLocation(fid, d1, d2, d3, d4, "")) == fid
    ensures GetLineRange(PackedLocation(fid, d1, d2, d3, d4, "")) == (0, 0)
  {
    var s := PackedLocation(fid, d1, d2, d3, d4, "");
    LocationFileId(fid, s[|fid|..]);
    assert s == fid + s[|fid|..];
    LocationPieces(fid, d1, d2, d3, d4, "");
    NoLowerAfter(s, |fid| - 1, d1, d2, d3, d4);
    NoOccurrenceAfterFileId(s, fid);
    LineRangeWithoutOccurrence(s);
  }

  /** When nothing after a comma-free prefix ending in a non-letter is a lower-case letter, the pattern occurs nowhere. */
  lemma NoOccurrenceAfterFileId(s: string, fid: string)
    requires |fid| > 0 && fid <= s && ',' !in fid && !IsLower(fid[|fid| - 1])
    requires forall j :: |fid| - 1 < j < |s| ==> !IsLower(s[j])
    ensures forall j :: 0 <= j < |s| ==> !Occurs(s, j)
  {
    NoOccurrenceInFileId(s, fid);
    forall j | 0 <= j < |s| ensures !Occurs(s, j) {
      if Occurs(s, j) {
        OccursNeedsLetterComma(s, j);
        assert false;
      }
    }
  }

  /** After position i, a location laid out from i on with digit pieces and nothing more holds no lower-case letter. */
  lemma NoLowerAfter(s: string, i: nat, d1: string, d2: string, d3: string, d4: string)
    requires LaidOut(s, i, d1, d2, d3, d4) && |s| == i + 5 + |d1| + |d2| + |d3| + |d4|
    requires AllDigits(d1) && AllDigits(d2) && AllDigits(d3) && AllDigits(d4)
    ensures forall j :: i < j < |s| ==> !IsLower(s[j])
  {
    forall j | i < j < |s| ensures !IsLower(s[j]) {
      var p2, p3, p4 := i + 3 + |d1|, i + 4 + |d1| + |d2|, i + 5 + |d1| + |d2| + |d3|;
      if j == i + 1 || j == p2 - 1 || j == p3 - 1 || j == p4 - 1 {
      } else if j < p2 {
        assert s[j] == d1[j - (i + 2)];
      } else if j < p3 {
        assert s[j] == d2[j - p2];
      } else if j < p4 {
        assert s[j] == d3[j - p3];
      } else {
        assert s[j] == d4[j - p4];
      }
    }
  }

  /** Locations in file `f1`, such as `f1,1:1,5:1` and `f1,6:1,9:1`, have no line range, since `f1` ends in a digit. */
  lemma FileF1HasNoLines(loc: string, l1: char, l2: char)
    requires IsDigit(l1) && IsDigit(l2)
    requires loc == "f1," + [l1] + ":1," + [l2] + ":1"
    ensures GetFileId(loc) == "f1"
    ensures GetLineRange(loc) == (0, 0)
  {
    var s := PackedLocation("f1", [l1], "1", [l2], "1", "");
    assert |s| == |loc|;
    forall k | 0 <= k < |s| ensures s[k] == loc[k] {
    }
    assert s == loc;
    DigitEndedFileIdHasNoLines("f1", [l1], "1", [l2], "1");
  }

  /** The location `a,10:1,20:5` names file `a` and lines 10 to 20. */
  lemma LetterFileIdExample(loc: string)
    requires loc == "a,10:1,20:5"
    ensures GetFileId(loc) == "a"
    ensures GetLineRange(loc) == (10, 20)
  {
    var fid, d1, d2, d3, d4, tail := "a", "10", "1", "20", "5", "";
    var s := PackedLocation(fid, d1, d2, d3, d4, tail);
    assert |s| == |loc|;
    forall k | 0 <= k < |s| ensures s[k] == loc[k] {
    }
    assert s == loc;
    assert d1[..1] == "1" && d3[..1] == "2";
    assert Value(d1) == 10 && Value(d3) == 20;
    LocationFields(fid, d1, d2, d3, d4, tail);
  }
}
