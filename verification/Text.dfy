/** Python's substring search: `count` and `replace(.., 1)` on text. */
module Text {
  import opened Wrappers

  // ---------------------------------------------------------------- whitespace

  /** What `str.strip` removes. */
  predicate IsSpace(c: char) {
    var u := c as int;
    9 <= u <= 13 || 28 <= u <= 32 || u in {0x85, 0xA0, 0x1680, 0x2028, 0x2029, 0x202F, 0x205F, 0x3000} || 0x2000 <= u <= 0x200A
  }

  /** Blanks, tabs and line ends are whitespace, and nothing visible in ASCII is. */
  lemma SpacesAre(c: char)
    ensures c in " \t\n\r" ==> IsSpace(c)
    ensures '!' <= c <= '~' ==> !IsSpace(c)
  {}

  function StripLeft(s: string): string {
    if s != "" && IsSpace(s[0]) then StripLeft(s[1..]) else s
  }

  function StripRight(s: string): string {
    if s != "" && IsSpace(s[|s| - 1]) then StripRight(s[..|s| - 1]) else s
  }

  function Strip(s: string): string {
    StripRight(StripLeft(s))
  }

  predicate Blank(s: string) {
    Strip(s) == ""
  }

  lemma {:induction false} StripLeftOfStripped(s: string)
    ensures StripLeft(s) == "" || !IsSpace(StripLeft(s)[0])
    ensures |StripLeft(s)| <= |s| && (s != "" && !IsSpace(s[0]) ==> StripLeft(s) == s)
  {
    if s != "" && IsSpace(s[0]) {
      StripLeftOfStripped(s[1..]);
    }
  }

  lemma {:induction false} StripRightKeepsStart(s: string)
    ensures StripRight(s) <= s
    ensures s != "" && !IsSpace(s[0]) ==> StripRight(s) != "" && StripRight(s)[0] == s[0]
    ensures StripRight(StripRight(s)) == StripRight(s)
  {
    if s != "" && IsSpace(s[|s| - 1]) {
      StripRightKeepsStart(s[..|s| - 1]);
    }
  }

  lemma StripIsIdempotent(s: string)
    ensures Strip(Strip(s)) == Strip(s)
  {
    var left := StripLeft(s);
    StripLeftOfStripped(s);
    StripRightKeepsStart(left);
    StripLeftOfStripped(StripRight(left));
  }

  lemma {:induction false} StripLeftIs(s: string) returns (i: nat)
    ensures i <= |s| && StripLeft(s) == s[i..] && forall k | 0 <= k < i :: IsSpace(s[k])
    ensures i < |s| ==> !IsSpace(s[i])
  {
    hide IsSpace;
    i := 0;
    if s != "" && IsSpace(s[0]) {
      i := StripLeftIs(s[1..]);
      i := i + 1;
    }
  }

  lemma {:induction false} StripRightIs(s: string) returns (j: nat)
    ensures j <= |s| && StripRight(s) == s[..j] && forall k | j <= k < |s| :: IsSpace(s[k])
    ensures j > 0 ==> !IsSpace(s[j - 1])
  {
    hide IsSpace;
    j := |s|;
    if s != "" && IsSpace(s[|s| - 1]) {
      j := StripRightIs(s[..|s| - 1]);
    }
  }

  /** What is kept is the middle between the outer whitespace, and nothing is exactly when there is
    * nothing but whitespace. */
  lemma StripIs(s: string) returns (i: nat, j: nat)
    ensures i <= j <= |s| && Strip(s) == s[i..j]
    ensures forall k | 0 <= k < |s| && (k < i || j <= k) :: IsSpace(s[k])
    ensures i < j ==> !IsSpace(s[i]) && !IsSpace(s[j - 1])
    ensures Blank(s) <==> forall k | 0 <= k < |s| :: IsSpace(s[k])
  {
    hide IsSpace, StripLeft, StripRight;
    i := StripLeftIs(s);
    var n := StripRightIs(s[i..]);
    j := i + n;
    assert forall k | 0 <= k < |s| - i :: s[i..][k] == s[i + k];
    forall k | j <= k < |s| ensures IsSpace(s[k]) {
      assert s[k] == s[i..][k - i];
    }
  }

  // ---------------------------------------------------------------- substring search

  predicate OccursAt(t: string, p: string, i: nat) {
    i + |p| <= |t| && t[i..i + |p|] == p
  }

  /** The leftmost occurrence at or after `from`. */
  function Find(t: string, p: string, from: nat): (r: Option<nat>)
    requires from <= |t|
    ensures r.Some? ==> from <= r.value && OccursAt(t, p, r.value)
    ensures r.Some? ==> forall i | from <= i < r.value :: !OccursAt(t, p, i)
    ensures r.None? ==> forall i | from <= i :: !OccursAt(t, p, i)
    decreases |t| - from
  {
    if OccursAt(t, p, from) then Some(from)
    else if from == |t| then None
    else Find(t, p, from + 1)
  }

  /** Non-overlapping occurrences, scanning left to right. */
  function Count(t: string, p: string, from: nat): nat
    requires p != "" && from <= |t|
    decreases |t| - from
  {
    match Find(t, p, from)
    case None => 0
    case Some(i) => 1 + Count(t, p, i + |p|)
  }

  function ReplaceFirst(t: string, p: string, r: string): string {
    match Find(t, p, 0)
    case None => t
    case Some(i) => t[..i] + r + t[i + |p|..]
  }

  /** No occurrence starts in [from, to). */
  predicate NoneWithin(t: string, p: string, from: nat, to: nat) {
    forall i | from <= i < to :: !OccursAt(t, p, i)
  }

  /** A leftmost occurrence at `i`, and none starting at or after its end. */
  predicate OnlyAt(t: string, p: string, i: nat) {
    OccursAt(t, p, i) && NoneWithin(t, p, 0, i) && NoneWithin(t, p, i + |p|, |t| + 1)
  }

  /** The leftmost occurrence can be named by any position with nothing before it. */
  lemma FindIs(t: string, p: string, from: nat, i: nat)
    requires from <= i && OccursAt(t, p, i) && NoneWithin(t, p, from, i)
    ensures Find(t, p, from) == Some(i)
  {
    assert Find(t, p, from).Some? ==> OccursAt(t, p, Find(t, p, from).value);
  }

  lemma FindsNone(t: string, p: string, from: nat)
    requires from <= |t| && NoneWithin(t, p, from, |t| + 1)
    ensures Find(t, p, from) == None
  {
    assert Find(t, p, from).Some? ==> OccursAt(t, p, Find(t, p, from).value);
  }

  lemma OnlyAtCountsOne(t: string, p: string, i: nat)
    requires p != "" && OnlyAt(t, p, i)
    ensures Count(t, p, 0) == 1 && Find(t, p, 0) == Some(i)
  {
    FindIs(t, p, 0, i);
    FindsNone(t, p, i + |p|);
    assert Count(t, p, i + |p|) == 0;
  }

  lemma CountsOneIsOnlyAt(t: string, p: string) returns (i: nat)
    requires p != "" && Count(t, p, 0) == 1
    ensures OnlyAt(t, p, i) && Find(t, p, 0) == Some(i)
  {
    i := Find(t, p, 0).value;
    assert Count(t, p, i + |p|) == 0;
    assert Find(t, p, i + |p|).None?;
  }

  /** Python's non-overlapping `count == 1`, in terms of where the anchor occurs. */
  lemma CountIsOne(t: string, p: string)
    requires p != ""
    ensures Count(t, p, 0) == 1 <==> exists i: nat :: OnlyAt(t, p, i)
  {
    if Count(t, p, 0) == 1 {
      var i := CountsOneIsOnlyAt(t, p);
    }
    if i: nat :| OnlyAt(t, p, i) {
      OnlyAtCountsOne(t, p, i);
    }
  }

  /** The anchor overlaps a shifted copy of itself. */
  predicate SelfOverlapping(p: string) {
    exists d | 0 < d < |p| :: p[d..] == p[..|p| - d]
  }

  ghost predicate UniqueAt(t: string, p: string, i: nat) {
    OccursAt(t, p, i) && forall j: nat :: OccursAt(t, p, j) ==> j == i
  }

  /** The edit engine's `count == 1` pins one position exactly when occurrences cannot overlap;
    * an anchor without self-overlap can never match in two places. */
  lemma CountOneIsUnique(t: string, p: string)
    requires p != ""
    ensures (exists i: nat :: UniqueAt(t, p, i)) ==> Count(t, p, 0) == 1
    ensures !SelfOverlapping(p) && Count(t, p, 0) == 1 ==> exists i: nat :: UniqueAt(t, p, i)
  {
    if i: nat :| UniqueAt(t, p, i) {
      OnlyAtCountsOne(t, p, i);
    }
    if !SelfOverlapping(p) && Count(t, p, 0) == 1 {
      var i := CountsOneIsOnlyAt(t, p);
      forall j: nat | OccursAt(t, p, j) ensures j == i {
        OverlapIsSelfOverlap(t, p, i, j);
      }
      assert UniqueAt(t, p, i);
    }
  }

  lemma OverlapIsSelfOverlap(t: string, p: string, i: nat, j: nat)
    requires OccursAt(t, p, i) && OccursAt(t, p, j)
    ensures i < j < i + |p| ==> SelfOverlapping(p)
  {
    if i < j < i + |p| {
      var d := j - i;
      assert t[i..i + |p|][d..] == t[j..i + |p|];
      assert t[j..j + |p|][..|p| - d] == t[j..i + |p|];
    }
  }

  /** And an anchor with self-overlap always has a text where the guard passes although the
    * anchor matches twice. */
  lemma SelfOverlapIsAmbiguous(p: string) returns (t: string, j: nat)
    requires p != "" && SelfOverlapping(p)
    ensures Count(t, p, 0) == 1 && OccursAt(t, p, 0) && OccursAt(t, p, j) && j > 0
  {
    var d :| 0 < d < |p| && p[d..] == p[..|p| - d];
    t, j := p[..d] + p, d;
    assert t[..|p|] == p[..d] + p[..|p| - d] == p[..d] + p[d..] == p;
    assert OccursAt(t, p, 0);
    OnlyAtCountsOne(t, p, 0);
  }

  /** So `count == 1` means "matches nowhere else" on every text exactly for those anchors that
    * have no self-overlap. */
  lemma CountOneIsSafeIff(p: string)
    requires p != ""
    ensures (forall t | Count(t, p, 0) == 1 :: exists i: nat :: UniqueAt(t, p, i)) <==> !SelfOverlapping(p)
  {
    if SelfOverlapping(p) {
      var t, j := SelfOverlapIsAmbiguous(p);
      assert !exists i: nat :: UniqueAt(t, p, i);
    } else {
      forall t | Count(t, p, 0) == 1 ensures exists i: nat :: UniqueAt(t, p, i) {
        CountOneIsUnique(t, p);
      }
    }
  }

  // ---------------------------------------------------------------- text files

  /** What `read_text` returns for a file's raw content: every `\r\n` and lone `\r` is `\n`.
    * `write_text` (with a `\n` line separator) writes its argument unchanged. */
  function Universal(raw: string): string {
    if raw == "" then ""
    else if raw[0] != '\r' then [raw[0]] + Universal(raw[1..])
    else if |raw| > 1 && raw[1] == '\n' then Universal(raw[1..])
    else "\n" + Universal(raw[1..])
  }

  lemma {:induction false} UniversalIsIdentityIff(raw: string)
    ensures '\r' !in Universal(raw)
    ensures Universal(raw) == raw <==> '\r' !in raw
  {
    if raw != "" {
      UniversalIsIdentityIff(raw[1..]);
      if raw[0] != '\r' {
        assert Universal(raw)[1..] == Universal(raw[1..]);
        assert raw == [raw[0]] + raw[1..];
      }
    }
  }

  /** Each line end becomes one `\n`, whatever it was, and nothing else changes. */
  lemma {:induction false} UniversalAtLineEnd(line: string, rest: string)
    requires '\r' !in line
    ensures Universal(line + "\r\n" + rest) == line + "\n" + Universal(rest)
    ensures (rest == "" || rest[0] != '\n') ==> Universal(line + "\r" + rest) == line + "\n" + Universal(rest)
    ensures Universal(line + "\n" + rest) == line + "\n" + Universal(rest)
  {
    if line == "" {
      assert "" + "\r\n" + rest == "\r\n" + rest && "" + "\r" + rest == "\r" + rest && "" + "\n" + rest == "\n" + rest;
      assert ("\r\n" + rest)[1..] == "\n" + rest && ("\r" + rest)[1..] == rest && ("\n" + rest)[1..] == rest;
    } else {
      UniversalAtLineEnd(line[1..], rest);
      assert (line + "\r\n" + rest)[1..] == line[1..] + "\r\n" + rest;
      assert (line + "\r" + rest)[1..] == line[1..] + "\r" + rest;
      assert (line + "\n" + rest)[1..] == line[1..] + "\n" + rest;
    }
  }
}
