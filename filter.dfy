/** The sequential scholarship filter and the facts about it the parallel merge relies on. */
module Filtering {
  import opened Students

  /**
   * The students of `s` that qualify, in their original order. Defined by
   * peeling off the last element, the way a loop appending to a result
   * vector builds it.
   */
  function Filter(s: seq<Student>, group: string, semester: int): (r: seq<Student>)
    ensures |r| <= |s|
    ensures forall k :: 0 <= k < |r| ==> IsScholarship(r[k], group, semester)
  {
    if |s| == 0 then []
    else
      var last := s[|s| - 1];
      Filter(s[..|s| - 1], group, semester) + (if IsScholarship(last, group, semester) then [last] else [])
  }

  /** Positions, in increasing order, of the students of `s` that qualify. */
  function QualifyingIndices(s: seq<Student>, group: string, semester: int): seq<nat>
  {
    if |s| == 0 then []
    else
      QualifyingIndices(s[..|s| - 1], group, semester) +
        (if IsScholarship(s[|s| - 1], group, semester) then [|s| - 1] else [])
  }

  /** The qualifying positions are in range, strictly increasing, and exactly the qualifying ones. */
  lemma {:induction false} QualifyingIndicesSpec(s: seq<Student>, group: string, semester: int)
    ensures var idx := QualifyingIndices(s, group, semester);
      (forall j :: 0 <= j < |idx| ==> idx[j] < |s|) &&
      (forall j1, j2 :: 0 <= j1 < j2 < |idx| ==> idx[j1] < idx[j2]) &&
      (forall i :: 0 <= i < |s| ==> (i in idx <==> IsScholarship(s[i], group, semester)))
  {
    if |s| > 0 {
      var init := s[..|s| - 1];
      QualifyingIndicesSpec(init, group, semester);
      assert forall i :: 0 <= i < |init| ==> init[i] == s[i];
    }
  }

  /**
   * The result holds, position by position, the students at the qualifying
   * positions; with QualifyingIndicesSpec, Filter is the order-preserving
   * subsequence of exactly the qualifying students.
   */
  lemma {:induction false} FilterAtQualifyingIndices(s: seq<Student>, group: string, semester: int)
    ensures var r, idx := Filter(s, group, semester), QualifyingIndices(s, group, semester);
      |r| == |idx| && forall j :: 0 <= j < |idx| ==> idx[j] < |s| && r[j] == s[idx[j]]
  {
    if |s| > 0 {
      var init := s[..|s| - 1];
      FilterAtQualifyingIndices(init, group, semester);
      var idx0 := QualifyingIndices(init, group, semester);
      assert forall j :: 0 <= j < |idx0| ==> idx0[j] < |init| && init[idx0[j]] == s[idx0[j]];
    }
  }

  /** A student is in the result exactly when it is in the input and qualifies. */
  lemma {:induction false} FilterMembership(s: seq<Student>, group: string, semester: int, x: Student)
    ensures x in Filter(s, group, semester) <==> x in s && IsScholarship(x, group, semester)
  {
    if |s| > 0 {
      var init := s[..|s| - 1];
      FilterMembership(init, group, semester, x);
      assert s == init + [s[|s| - 1]];
    }
  }

  /** Filtering distributes over concatenation: the basis of the chunked merge. */
  lemma {:induction false} FilterAppend(a: seq<Student>, b: seq<Student>, group: string, semester: int)
    ensures Filter(a + b, group, semester) == Filter(a, group, semester) + Filter(b, group, semester)
  {
    if |b| == 0 {
      assert a + b == a;
    } else {
      var initB := b[..|b| - 1];
      FilterAppend(a, initB, group, semester);
      assert (a + b)[..|a + b| - 1] == a + initB;
      assert (a + b)[|a + b| - 1] == b[|b| - 1];
    }
  }

  /** Filtering the prefix up to `j` extends filtering the prefix up to `i` by the slice between. */
  lemma FilterPrefixSplit(s: seq<Student>, i: nat, j: nat, group: string, semester: int)
    requires i <= j <= |s|
    ensures Filter(s[..j], group, semester) == Filter(s[..i], group, semester) + Filter(s[i..j], group, semester)
  {
    assert s[..j] == s[..i] + s[i..j];
    FilterAppend(s[..i], s[i..j], group, semester);
  }

  /** The loop of processSequential: push every qualifying student onto the result. */
  method ProcessSequential(students: seq<Student>, group: string, semester: int) returns (result: seq<Student>)
    ensures result == Filter(students, group, semester)
  {
    result := [];
    var i := 0;
    while i < |students|
      invariant 0 <= i <= |students|
      invariant result == Filter(students[..i], group, semester)
    {
      var ok := CheckScholarship(students[i], group, semester);
      assert students[..i + 1][..i] == students[..i];
      if ok {
        result := result + [students[i]];
      }
      i := i + 1;
    }
    assert students[..i] == students;
  }
}
