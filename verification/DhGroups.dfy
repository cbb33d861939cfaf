/** Choice of a Diffie-Hellman group from the moduli file (choose_dh in dh.c). */
module DhGroups {

  /** One line of the file: the size of its group, or nothing if the line does not parse. */
  datatype Line = Unusable | Group(size: int)

  predicate InRange(l: Line, min: int, max: int) { l.Group? && min <= l.size <= max }

  /** How many in-range lines have that size. */
  function Count(lines: seq<Line>, min: int, max: int, size: int): nat
  {
    if lines == [] then 0
    else
      var l := lines[|lines| - 1];
      Count(lines[..|lines| - 1], min, max, size) + if InRange(l, min, max) && l.size == size then 1 else 0
  }

  ghost predicate Occurs(lines: seq<Line>, min: int, max: int, size: int)
  {
    exists i :: 0 <= i < |lines| && InRange(lines[i], min, max) && lines[i].size == size
  }

  /** What the scan has settled on: nothing, the largest size while none reaches `want`, or
      one at least `want` that no in-range size above `want` undercuts. */
  ghost predicate BestSoFar(lines: seq<Line>, min: int, want: int, max: int, best: int)
  {
    && (best == 0 || Occurs(lines, min, max, best))
    && (forall i :: 0 <= i < |lines| && InRange(lines[i], min, max) ==>
          && (best < want ==> lines[i].size <= best)
          && (best >= want && lines[i].size > want ==> best <= lines[i].size))
  }

  lemma {:induction false} CountZero(lines: seq<Line>, min: int, max: int, size: int)
    ensures Count(lines, min, max, size) == 0 <==> !Occurs(lines, min, max, size)
  {
    if lines != [] {
      var n := |lines| - 1;
      CountZero(lines[..n], min, max, size);
      if Occurs(lines, min, max, size) && !(InRange(lines[n], min, max) && lines[n].size == size) {
        var i :| 0 <= i < |lines| && InRange(lines[i], min, max) && lines[i].size == size;
        assert lines[..n][i] == lines[i];
      }
      if Occurs(lines[..n], min, max, size) {
        var i :| 0 <= i < n && InRange(lines[..n][i], min, max) && lines[..n][i].size == size;
        assert lines[i] == lines[..n][i];
      }
    }
  }

  // ----- the size that the first pass settles on

  /** A line of that size replaces the best size so far. */
  predicate Better(size: int, best: int, want: int)
  {
    (size > want && size < best) || (size > best && best < want)
  }

  function Best(lines: seq<Line>, min: int, want: int, max: int): int
  {
    if lines == [] then 0
    else
      var b, l := Best(lines[..|lines| - 1], min, want, max), lines[|lines| - 1];
      if InRange(l, min, max) && Better(l.size, b, want) then l.size else b
  }

  /** Sizes are positive, since parse_prime rejects zero and adds one. */
  predicate Positive(lines: seq<Line>) { forall i :: 0 <= i < |lines| && lines[i].Group? ==> lines[i].size > 0 }

  lemma {:induction false} BestMeaning(lines: seq<Line>, min: int, want: int, max: int)
    requires Positive(lines)
    ensures want <= 0 ==> Best(lines, min, want, max) == 0
    ensures want > 0 ==> BestSoFar(lines, min, want, max, Best(lines, min, want, max))
    ensures want > 0 && Best(lines, min, want, max) == 0 ==>
              forall i :: 0 <= i < |lines| ==> !InRange(lines[i], min, max)
  {
    if lines != [] {
      var n := |lines| - 1;
      var b, c := Best(lines[..n], min, want, max), Best(lines, min, want, max);
      BestMeaning(lines[..n], min, want, max);
      if want > 0 {
        if c == b && b != 0 {
          var i :| 0 <= i < n && InRange(lines[..n][i], min, max) && lines[..n][i].size == b;
          assert lines[i] == lines[..n][i];
        }
        forall i | 0 <= i < |lines| && InRange(lines[i], min, max)
          ensures c < want ==> lines[i].size <= c
          ensures c >= want && lines[i].size > want ==> c <= lines[i].size
        {
          if i < n { assert lines[i] == lines[..n][i]; }
        }
      }
    }
  }

  /** A size that takes over has not occurred before, so counting may start again. */
  lemma NewBestIsNew(lines: seq<Line>, min: int, want: int, max: int, size: int)
    requires Positive(lines) && want > 0 && size > 0 && Better(size, Best(lines, min, want, max), want)
    ensures Count(lines, min, max, size) == 0
  {
    BestMeaning(lines, min, want, max);
    CountZero(lines, min, max, size);
  }

  ghost predicate Reaches(l: Line, min: int, want: int, max: int) { InRange(l, min, max) && l.size >= want }

  /** `k` is the first usable line whose size is at least `want`. */
  ghost predicate FirstReach(lines: seq<Line>, min: int, want: int, max: int, k: nat)
  {
    && k < |lines| && Reaches(lines[k], min, want, max)
    && forall i :: 0 <= i < k ==> !Reaches(lines[i], min, want, max)
  }

  lemma {:induction false} OrderDecides(lines: seq<Line>, min: int, want: int, max: int, k: nat)
    requires Positive(lines) && want > 0 && FirstReach(lines, min, want, max, k)
    ensures Best(lines, min, want, max) == want <==> lines[k].size == want
  {
    var n := |lines| - 1;
    var front := lines[..n];
    BestMeaning(front, min, want, max);
    BestMeaning(lines, min, want, max);
    if k < n {
      assert front[k] == lines[k] && forall i :: 0 <= i < k ==> front[i] == lines[i];
      OrderDecides(front, min, want, max, k);
      assert Best(front, min, want, max) >= want;
    } else {
      assert forall i :: 0 <= i < n ==> front[i] == lines[i];
    }
  }

  /** The smallest usable size that is not below `want`. */
  ghost predicate SmallestReaching(lines: seq<Line>, min: int, want: int, max: int, best: int)
  {
    best >= want && Occurs(lines, min, max, best)
    && forall i :: 0 <= i < |lines| && Reaches(lines[i], min, want, max) ==> best <= lines[i].size
  }

  /** If some usable size reaches `want`, the scan finds the smallest such size exactly when
      `want` itself does not occur or is the first of them in the file. */
  lemma SmallestIff(lines: seq<Line>, min: int, want: int, max: int, k: nat)
    requires Positive(lines) && want > 0 && FirstReach(lines, min, want, max, k)
    ensures SmallestReaching(lines, min, want, max, Best(lines, min, want, max))
            <==> !Occurs(lines, min, max, want) || lines[k].size == want
  {
    OrderDecides(lines, min, want, max, k);
    BestMeaning(lines, min, want, max);
    var b := Best(lines, min, want, max);
    assert b >= want by { assert InRange(lines[k], min, max); }
    if Occurs(lines, min, max, want) {
      var i :| 0 <= i < |lines| && InRange(lines[i], min, max) && lines[i].size == want;
      assert Reaches(lines[i], min, want, max);
    }
  }

  /** A larger size listed before the wanted one is kept. */
  lemma LargerSizeKept()
    ensures Best([Group(3072), Group(2048)], 1024, 2048, 8192) == 3072
  {
    var lines := [Group(3072), Group(2048)];
    assert lines[..1] == [Group(3072)] && lines[..1][..0] == [];
    assert Best(lines[..1], 1024, 2048, 8192) == 3072;
  }

  // ----- the two passes

  /** First pass: the size to use and how many groups of that size the whole file holds,
      although the count starts again whenever the size changes. */
  method FirstPass(lines: seq<Line>, min: int, want: int, max: int) returns (best: int, bestcount: nat)
    requires Positive(lines)
    ensures best == Best(lines, min, want, max)
    ensures bestcount == Count(lines, min, max, best)
    ensures want > 0 ==> BestSoFar(lines, min, want, max, best)
    ensures bestcount == 0 <==> want <= 0 || forall i :: 0 <= i < |lines| ==> !InRange(lines[i], min, max)
  {
    best, bestcount := 0, 0;
    for n := 0 to |lines|
      invariant best == Best(lines[..n], min, want, max)
      invariant bestcount == Count(lines[..n], min, max, best)
    {
      var l := lines[n];
      assert lines[..n + 1][..n] == lines[..n];
      if l.Group? && !(l.size > max || l.size < min) {
        if (l.size > want && l.size < best) || (l.size > best && best < want) {
          BestMeaning(lines[..n], min, want, max);
          NewBestIsNew(lines[..n], min, want, max, l.size);
          best := l.size;
          bestcount := 0;
        }
        if l.size == best {
          bestcount := bestcount + 1;
        }
      }
    }
    assert lines[..|lines|] == lines;
    BestMeaning(lines, min, want, max);
    CountZero(lines, min, max, best);
    if want > 0 && best != 0 { var i :| 0 <= i < |lines| && InRange(lines[i], min, max) && lines[i].size == best; }
  }

  /** `k` is the line that holds group number `which` of that size. */
  ghost predicate IsNth(lines: seq<Line>, min: int, max: int, size: int, which: nat, k: nat)
  {
    && k < |lines| && InRange(lines[k], min, max) && lines[k].size == size
    && Count(lines[..k], min, max, size) == which
  }

  lemma {:induction false} CountMono(lines: seq<Line>, min: int, max: int, size: int, n: nat)
    requires n <= |lines|
    ensures Count(lines[..n], min, max, size) <= Count(lines, min, max, size)
  {
    if n == |lines| {
      assert lines[..n] == lines;
    } else {
      assert lines[..|lines| - 1][..n] == lines[..n];
      CountMono(lines[..|lines| - 1], min, max, size, n);
    }
  }

  /** Second pass over the file, which may have changed: finds group number `which` of the
      chosen size exactly when the file still has that many. */
  method SecondPass(lines: seq<Line>, min: int, max: int, best: int, which: nat) returns (found: bool, k: nat)
    ensures found <==> Count(lines, min, max, best) > which
    ensures found ==> IsNth(lines, min, max, best, which, k)
  {
    var bestcount := 0;
    k := 0;
    while k < |lines|
      invariant 0 <= k <= |lines| && bestcount == Count(lines[..k], min, max, best) <= which
    {
      var l := lines[k];
      assert lines[..k + 1][..k] == lines[..k];
      if l.Group? && !(l.size > max || l.size < min) && l.size == best {
        bestcount := bestcount + 1;
        if bestcount - 1 == which { CountMono(lines, min, max, best, k + 1); break; }
      }
      k := k + 1;
    }
    assert lines[..|lines|] == lines;
    found := bestcount == which + 1;
  }

  /** choose_dh: the line of the chosen group, or nothing when the fixed group is used.  On a
      file that does not change between the passes the choice never gets lost. */
  method ChooseDh(lines: seq<Line>, again: seq<Line>, min: int, want: int, max: int, random: nat)
    returns (found: bool, k: nat)
    requires Positive(lines)
    ensures again == lines ==>
              (found <==> want > 0 && exists i :: 0 <= i < |lines| && InRange(lines[i], min, max))
    ensures found ==> var best := Best(lines, min, want, max);
              Count(lines, min, max, best) > 0
              && IsNth(again, min, max, best, random % Count(lines, min, max, best), k)
  {
    var best, bestcount := FirstPass(lines, min, want, max);
    if bestcount == 0 { return false, 0; }
    found, k := SecondPass(again, min, max, best, random % bestcount);
  }

  /** Every group of the chosen size is the choice for exactly one number. */
  lemma {:induction false} NthUnique(lines: seq<Line>, min: int, max: int, size: int, which: nat, j: nat, k: nat)
    requires IsNth(lines, min, max, size, which, j) && IsNth(lines, min, max, size, which, k)
    ensures j == k
  {
    if j < k {
      assert lines[..k][..j + 1] == lines[..j + 1] && lines[..j + 1][..j] == lines[..j];
      CountMono(lines[..k], min, max, size, j + 1);
    } else if k < j {
      assert lines[..j][..k + 1] == lines[..k + 1] && lines[..k + 1][..k] == lines[..k];
      CountMono(lines[..j], min, max, size, k + 1);
    }
  }
}
