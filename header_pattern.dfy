/**
 The file-header pattern `---- (.*?) \((.*?)\) ----` as `re.search` applies
 it to one line (a line never holds a newline, so `.` matches every
 character of it). The search is leftmost; both groups are lazy, so the
 file group ends at the first " (" after the opening "---- ", and the count
 group ends at the first ") ----" after that.
 */
module HeaderPattern {
  import opened Wrappers
  import opened Strings

  const Lead: string := "---- "
  const Mid: string := " ("
  const Tail: string := ") ----"

  /** Where a match starts, and the text of its two groups. */
  datatype HeaderMatch = HeaderMatch(start: nat, file: string, count: string)

  /** The match of the pattern that starts at index `i` of `line`, if any. */
  function MatchAt(line: string, i: nat): (r: Option<HeaderMatch>)
    ensures r.Some? ==>
      var m := r.value;
      var j := i + |Lead| + |m.file|;
      var k := j + |Mid| + |m.count|;
      && m.start == i
      && Occurs(line, Lead, i) && Occurs(line, Mid, j) && Occurs(line, Tail, k)
      && line[i + |Lead|..j] == m.file && line[j + |Mid|..k] == m.count
      && (forall j': nat :: i + |Lead| <= j' < j ==> !Occurs(line, Mid, j'))
      && (forall k': nat :: j + |Mid| <= k' < k ==> !Occurs(line, Tail, k'))
    ensures r.None? ==>
      forall j: nat, k: nat :: i + |Lead| <= j && j + |Mid| <= k && Occurs(line, Mid, j) && Occurs(line, Tail, k)
        ==> !Occurs(line, Lead, i)
  {
    if !Occurs(line, Lead, i) then None
    else match FindFrom(line, Mid, i + |Lead|)
      case None => None
      case Some(j) =>
        match FindFrom(line, Tail, j + |Mid|)
        case None => None
        case Some(k) => Some(HeaderMatch(i, line[i + |Lead|..j], line[j + |Mid|..k]))
  }

  /** `re.search` from index `from` on: the leftmost match. */
  function SearchFrom(line: string, from: nat): (r: Option<HeaderMatch>)
    ensures r.Some? ==> from <= r.value.start <= |line| && MatchAt(line, r.value.start) == r
    ensures r.Some? ==> forall i: nat :: from <= i < r.value.start ==> MatchAt(line, i).None?
    ensures r.None? ==> forall i: nat :: from <= i <= |line| ==> MatchAt(line, i).None?
    decreases |line| - from
  {
    if from > |line| then None
    else match MatchAt(line, from)
      case Some(m) => Some(m)
      case None => SearchFrom(line, from + 1)
  }

  /** `re.search` on the whole line: the leftmost match, if there is one. */
  function Search(line: string): (r: Option<HeaderMatch>)
    ensures r.Some? ==> MatchAt(line, r.value.start) == r
    ensures r.Some? ==> forall i: nat :: i < r.value.start ==> MatchAt(line, i).None?
    ensures r.None? ==> forall i: nat :: i <= |line| ==> MatchAt(line, i).None?
  {
    SearchFrom(line, 0)
  }

  /** The pieces of a header line, located by index. */
  predicate HeaderPieces(line: string, f: string, n: string) {
    var j := |Lead| + |f|;
    var k := j + |Mid| + |n|;
    && |line| == k + |Tail|
    && line[..|Lead|] == Lead
    && line[|Lead|..j] == f
    && line[j..j + |Mid|] == Mid
    && line[j + |Mid|..k] == n
    && line[k..] == Tail
  }

  /** The concatenated header line has its pieces where `HeaderPieces` says. */
  lemma HeaderLinePieces(f: string, n: string)
    ensures HeaderPieces(Lead + f + Mid + n + Tail, f, n)
  {
    var line := Lead + f + Mid + n + Tail;
    var j := |Lead| + |f|;
    var k := j + |Mid| + |n|;
    assert line[..|Lead|] == Lead;
    assert line[|Lead|..j] == f;
    assert line[j..j + |Mid|] == Mid;
    assert line[j + |Mid|..k] == n;
    assert line[k..] == Tail;
  }

  /** In a header line, the first " (" after the lead ends the file name. */
  lemma FirstMidAfterFile(line: string, f: string, n: string)
    requires HeaderPieces(line, f, n)
    requires forall k: nat :: !Occurs(f, Mid, k)
    ensures FindFrom(line, Mid, |Lead|) == Some(|Lead| + |f|)
  {
    var j := |Lead| + |f|;
    assert line[j] == line[j..j + |Mid|][0] == ' ';
    forall j': nat | |Lead| <= j' < j
      ensures !Occurs(line, Mid, j')
    {
      if j' + |Mid| <= j {
        OccursInSlice(line, |Lead|, j, Mid, j');
      } else {
        assert j' + 1 == j;
      }
    }
    FindFromFirst(line, Mid, |Lead|, j);
  }

  /** In a header line, the first ") ----" after " (" ends the count. */
  lemma FirstTailAfterCount(line: string, f: string, n: string)
    requires HeaderPieces(line, f, n)
    requires forall k: nat :: !Occurs(n, Tail, k)
    ensures FindFrom(line, Tail, |Lead| + |f| + |Mid|) == Some(|Lead| + |f| + |Mid| + |n|)
  {
    var base := |Lead| + |f| + |Mid|;
    var k := base + |n|;
    assert line[k] == line[k..][0] == ')';
    forall k': nat | base <= k' < k
      ensures !Occurs(line, Tail, k')
    {
      if k' + |Tail| <= k {
        OccursInSlice(line, base, k, Tail, k');
      } else {
        assert Tail[k - k'] != ')';
      }
    }
    FindFromFirst(line, Tail, base, k);
  }

  /**
   A line made of exactly "---- F (N) ----", where F holds no " (" and N no
   ") ----", is found at its start with groups F and N.
   */
  lemma SearchExactHeader(f: string, n: string)
    requires forall k: nat :: !Occurs(f, Mid, k)
    requires forall k: nat :: !Occurs(n, Tail, k)
    ensures Search(Lead + f + Mid + n + Tail) == Some(HeaderMatch(0, f, n))
  {
    var line := Lead + f + Mid + n + Tail;
    HeaderLinePieces(f, n);
    FirstMidAfterFile(line, f, n);
    FirstTailAfterCount(line, f, n);
    assert Occurs(line, Lead, 0);
    assert MatchAt(line, 0) == Some(HeaderMatch(0, f, n));
  }
}
