/** The KL ordering of `Visualizer.all_latent_traversals` and the log reader
    `read_avg_kl_from_file` it relies on.

    The reader returns the fields of the log's last CSV record after the first (the
    training step), one average-KL string per latent dimension. The traversal rows
    are paired with those strings by `zip`, which stops at the shorter list, and the
    pairs are sorted in reverse. The comparison is Python's tuple comparison: the KL
    strings are compared as text, and only when two strings are equal are the
    traversal tensors compared, which fails, because the truth value of a
    many-element tensor comparison is ambiguous. A comparison sort compares every
    two elements that end up adjacent, so any repeated KL string makes the sort fail. */
module KlOrder {
  import opened Outcome

  /** Python's `<` on strings: lexicographic by code point, a proper prefix first. */
  predicate StrLess(a: string, b: string)
  {
    if |a| == 0 then |b| > 0
    else if |b| == 0 then false
    else if a[0] != b[0] then a[0] < b[0]
    else StrLess(a[1..], b[1..])
  }

  lemma {:induction false} StrLessIrreflexive(a: string)
    ensures !StrLess(a, a)
  {
    if |a| > 0 {
      StrLessIrreflexive(a[1..]);
    }
  }

  lemma {:induction false} StrLessAsymmetric(a: string, b: string)
    requires StrLess(a, b)
    ensures !StrLess(b, a)
  {
    if |a| > 0 && |b| > 0 && a[0] == b[0] {
      StrLessAsymmetric(a[1..], b[1..]);
    }
  }

  lemma {:induction false} StrLessTransitive(a: string, b: string, c: string)
    requires StrLess(a, b) && StrLess(b, c)
    ensures StrLess(a, c)
  {
    if |a| > 0 && a[0] == b[0] && b[0] == c[0] {
      StrLessTransitive(a[1..], b[1..], c[1..]);
    }
  }

  /** Two different strings are always ordered one way or the other. */
  lemma {:induction false} StrLessTotal(a: string, b: string)
    requires a != b
    ensures StrLess(a, b) || StrLess(b, a)
  {
    if |a| > 0 && |b| > 0 && a[0] == b[0] {
      assert a == [a[0]] + a[1..] && b == [b[0]] + b[1..];
      StrLessTotal(a[1..], b[1..]);
    }
  }

  /** Python's `zip` of two lists: pairs up to the shorter length. */
  function Zip<T>(keys: seq<string>, rows: seq<T>): (z: seq<(string, T)>)
    ensures |z| == if |keys| < |rows| then |keys| else |rows|
    ensures forall i :: 0 <= i < |z| ==> z[i] == (keys[i], rows[i])
  {
    if |keys| == 0 || |rows| == 0 then [] else [(keys[0], rows[0])] + Zip(keys[1..], rows[1..])
  }

  function Keys<T>(zs: seq<(string, T)>): (ks: seq<string>)
    ensures |ks| == |zs| && forall i :: 0 <= i < |zs| ==> ks[i] == zs[i].0
  {
    seq(|zs|, i requires 0 <= i < |zs| => zs[i].0)
  }

  function Values<T>(zs: seq<(string, T)>): (vs: seq<T>)
    ensures |vs| == |zs| && forall i :: 0 <= i < |zs| ==> vs[i] == zs[i].1
  {
    seq(|zs|, i requires 0 <= i < |zs| => zs[i].1)
  }

  /** No two pairs share a KL string, so no tensor comparison is ever reached. */
  predicate DistinctKeys<T>(zs: seq<(string, T)>)
  {
    forall i, j :: 0 <= i < j < |zs| ==> zs[i].0 != zs[j].0
  }

  /** Every pair ranks strictly above the next one. */
  predicate Descending<T>(zs: seq<(string, T)>)
  {
    forall i :: 0 < i < |zs| ==> StrLess(zs[i].0, zs[i - 1].0)
  }

  /** Places `p` in front of the first pair whose string is below its own. */
  function Insert<T>(p: (string, T), zs: seq<(string, T)>): seq<(string, T)>
  {
    if |zs| == 0 || StrLess(zs[0].0, p.0) then [p] + zs else [zs[0]] + Insert(p, zs[1..])
  }

  /** `sorted(pairs, reverse=True)` on pairs with distinct strings. */
  function SortDesc<T>(zs: seq<(string, T)>): seq<(string, T)>
  {
    if |zs| == 0 then [] else Insert(zs[0], SortDesc(zs[1..]))
  }

  lemma {:induction false} InsertPermutes<T>(p: (string, T), zs: seq<(string, T)>)
    ensures multiset(Insert(p, zs)) == multiset([p] + zs)
  {
    if |zs| > 0 && !StrLess(zs[0].0, p.0) {
      InsertPermutes(p, zs[1..]);
      assert zs == [zs[0]] + zs[1..];
    }
  }

  /** The sort only rearranges the pairs: each comes out as often as it went in. */
  lemma {:induction false} SortPermutes<T>(zs: seq<(string, T)>)
    ensures multiset(SortDesc(zs)) == multiset(zs)
  {
    if |zs| > 0 {
      SortPermutes(zs[1..]);
      InsertPermutes(zs[0], SortDesc(zs[1..]));
      assert zs == [zs[0]] + zs[1..];
    }
  }

  lemma {:induction false} InsertDescending<T>(p: (string, T), zs: seq<(string, T)>)
    requires Descending(zs)
    requires forall i :: 0 <= i < |zs| ==> zs[i].0 != p.0
    ensures Descending(Insert(p, zs))
    ensures |Insert(p, zs)| == |zs| + 1
    ensures |zs| > 0 ==> Insert(p, zs)[0] == p || Insert(p, zs)[0] == zs[0]
  {
    if |zs| > 0 && !StrLess(zs[0].0, p.0) {
      InsertDescending(p, zs[1..]);
      StrLessTotal(zs[0].0, p.0);
    }
  }

  /** With distinct strings the sort leaves every pair ranked strictly above the next. */
  lemma {:induction false} SortDescending<T>(zs: seq<(string, T)>)
    requires DistinctKeys(zs)
    ensures Descending(SortDesc(zs))
  {
    if |zs| > 0 {
      SortDescending(zs[1..]);
      SortPermutes(zs[1..]);
      var rest := SortDesc(zs[1..]);
      forall i | 0 <= i < |rest| ensures rest[i].0 != zs[0].0 {
        assert rest[i] in multiset(zs[1..]);
      }
      InsertDescending(zs[0], rest);
    }
  }

  lemma KeysCons<T>(p: (string, T), zs: seq<(string, T)>)
    ensures Keys([p] + zs) == [p.0] + Keys(zs)
  {
  }

  lemma KeysTail<T>(zs: seq<(string, T)>)
    requires |zs| > 0
    ensures Keys(zs)[0] == zs[0].0 && Keys(zs[1..]) == Keys(zs)[1..]
  {
  }

  lemma {:induction false} InsertKeys<T, U>(p: (string, T), zs: seq<(string, T)>, q: (string, U), ys: seq<(string, U)>)
    requires p.0 == q.0 && Keys(zs) == Keys(ys)
    ensures Keys(Insert(p, zs)) == Keys(Insert(q, ys))
  {
    if |zs| == 0 {
      KeysCons(p, zs);
      KeysCons(q, ys);
    } else {
      KeysTail(zs);
      KeysTail(ys);
      if StrLess(zs[0].0, p.0) {
        KeysCons(p, zs);
        KeysCons(q, ys);
      } else {
        InsertKeys(p, zs[1..], q, ys[1..]);
        KeysCons(zs[0], Insert(p, zs[1..]));
        KeysCons(ys[0], Insert(q, ys[1..]));
      }
    }
  }

  /** The order the sort produces depends on the strings alone, not on what is paired
      with them. */
  lemma {:induction false} SortKeys<T, U>(zs: seq<(string, T)>, ys: seq<(string, U)>)
    requires Keys(zs) == Keys(ys)
    ensures Keys(SortDesc(zs)) == Keys(SortDesc(ys))
  {
    if |zs| > 0 {
      KeysTail(zs);
      KeysTail(ys);
      SortKeys(zs[1..], ys[1..]);
      InsertKeys(zs[0], SortDesc(zs[1..]), ys[0], SortDesc(ys[1..]));
    }
  }

  /** The traversal rows in display order and the KL label of each row. */
  datatype Ordering<T> = Ordering(rows: seq<T>, labels: seq<string>)

  /** Lines 200-201 of `all_latent_traversals`: the rows in reverse order of their KL
      strings, then the labels, taken by sorting the KL strings zipped with the rows
      already reordered. Either sort fails on a repeated KL string. */
  function OrderByKl<T>(scores: seq<string>, rows: seq<T>): Result<Ordering<T>>
  {
    var pairs := Zip(scores, rows);
    if !DistinctKeys(pairs) then Err(AmbiguousTie)
    else
      var ordered := Values(SortDesc(pairs));
      var relabel := Zip(scores, ordered);
      if !DistinctKeys(relabel) then Err(AmbiguousTie)
      else Ok(Ordering(ordered, Keys(SortDesc(relabel))))
  }

  /** The ordering succeeds exactly when the KL strings that get paired are distinct.
      Then one row per pair comes out, ranked by strictly falling KL string; label i is
      the KL string that was paired with row i; and the (label, row) pairs are exactly
      the pairs `zip` made, rearranged. */
  lemma {:induction false} OrderByKlSpec<T>(scores: seq<string>, rows: seq<T>)
    ensures OrderByKl(scores, rows).Ok? <==> DistinctKeys(Zip(scores, rows))
    ensures OrderByKl(scores, rows).Ok? ==>
              var o := OrderByKl(scores, rows).value;
              var paired := Zip(o.labels, o.rows);
              |o.rows| == |o.labels| == |Zip(scores, rows)| &&
              Descending(paired) &&
              multiset(paired) == multiset(Zip(scores, rows))
  {
    var pairs := Zip(scores, rows);
    if DistinctKeys(pairs) {
      var sorted := SortDesc(pairs);
      SortPermutes(pairs);
      SortDescending(pairs);
      assert |sorted| == |pairs| by {
        assert |multiset(sorted)| == |multiset(pairs)|;
      }
      var ordered := Values(sorted);
      var relabel := Zip(scores, ordered);
      assert Keys(relabel) == Keys(pairs);
      assert DistinctKeys(relabel);
      SortKeys(relabel, pairs);
      var o := OrderByKl(scores, rows).value;
      assert o.labels == Keys(sorted);
      assert Zip(o.labels, o.rows) == sorted;
    }
  }

  /** KL strings 0.1, 0.9, 0.5 for dimensions 0, 1, 2 rank the rows 1, 2, 0 and label
      them 0.9, 0.5, 0.1 from the top. */
  lemma ThreeDimensions()
    ensures OrderByKl(["0.1", "0.9", "0.5"], [0, 1, 2]) == Ok(Ordering([1, 2, 0], ["0.9", "0.5", "0.1"]))
  {
    assert StrLess("0.1", "0.5") && StrLess("0.5", "0.9") && StrLess("0.1", "0.9");
    var pairs := Zip(["0.1", "0.9", "0.5"], [0, 1, 2]);
    assert pairs == [("0.1", 0), ("0.9", 1), ("0.5", 2)];
    assert SortDesc(pairs[2..]) == [("0.5", 2)];
    assert SortDesc(pairs[1..]) == [("0.9", 1), ("0.5", 2)];
    assert Insert(("0.1", 0), [("0.5", 2)]) == [("0.5", 2), ("0.1", 0)];
    assert SortDesc(pairs) == [("0.9", 1), ("0.5", 2), ("0.1", 0)];
    assert DistinctKeys(pairs) && Values(SortDesc(pairs)) == [1, 2, 0];
    var relabel := Zip(["0.1", "0.9", "0.5"], [1, 2, 0]);
    assert relabel == [("0.1", 1), ("0.9", 2), ("0.5", 0)];
    assert SortDesc(relabel[2..]) == [("0.5", 0)];
    assert SortDesc(relabel[1..]) == [("0.9", 2), ("0.5", 0)];
    assert Insert(("0.1", 1), [("0.5", 0)]) == [("0.5", 0), ("0.1", 1)];
    assert SortDesc(relabel) == [("0.9", 2), ("0.5", 0), ("0.1", 1)];
    assert DistinctKeys(relabel) && Keys(SortDesc(relabel)) == ["0.9", "0.5", "0.1"];
  }

  /** The ranking is textual, not numeric: a KL of 9.0 is shown above a KL of 10.0. */
  lemma TextualRanking()
    ensures OrderByKl(["10.0", "9.0"], [0, 1]) == Ok(Ordering([1, 0], ["9.0", "10.0"]))
  {
    assert StrLess("10.0", "9.0") && !StrLess("9.0", "10.0");
    var pairs := Zip(["10.0", "9.0"], [0, 1]);
    assert pairs == [("10.0", 0), ("9.0", 1)];
    assert SortDesc(pairs[1..]) == [("9.0", 1)];
    assert SortDesc(pairs) == [("9.0", 1), ("10.0", 0)];
    assert DistinctKeys(pairs) && Values(SortDesc(pairs)) == [1, 0];
    var relabel := Zip(["10.0", "9.0"], [1, 0]);
    assert relabel == [("10.0", 1), ("9.0", 0)];
    assert SortDesc(relabel[1..]) == [("9.0", 0)];
    assert SortDesc(relabel) == [("9.0", 0), ("10.0", 1)];
    assert DistinctKeys(relabel) && Keys(SortDesc(relabel)) == ["9.0", "10.0"];
  }

  /** `read_avg_kl_from_file` on the parsed CSV records: the fields of the last record
      after its first, and an index error when the log has no record. */
  function LastRecordScores(records: seq<seq<string>>): (r: Result<seq<string>>)
    ensures r.Err? <==> |records| == 0
    ensures r.Err? ==> r.error == EmptyLog
    ensures r.Ok? ==> var last := records[|records| - 1];
                      if |last| == 0 then r.value == [] else [last[0]] + r.value == last
  {
    if |records| == 0 then Err(EmptyLog)
    else
      var last := records[|records| - 1];
      if |last| == 0 then Ok([]) else Ok(last[1..])
  }

  /** The ranking step of `all_latent_traversals`: the KL strings of the log's last record
      order the traversal rows. A log without records fails before anything is ordered.
      Otherwise, with `scores` the last record's fields after the first, the ranking
      succeeds exactly when the paired strings are distinct, ranks the rows by strictly
      falling string, and pairs every row with the string it was zipped with. */
  function RankTraversals<T>(records: seq<seq<string>>, rows: seq<T>): (r: Result<Ordering<T>>)
    ensures |records| == 0 ==> r == Err(EmptyLog)
    ensures |records| > 0 ==>
              var last := records[|records| - 1];
              var scores := if |last| == 0 then [] else last[1..];
              && (r.Ok? <==> DistinctKeys(Zip(scores, rows)))
              && (r.Ok? ==> Descending(Zip(r.value.labels, r.value.rows)))
              && (r.Ok? ==> multiset(Zip(r.value.labels, r.value.rows)) == multiset(Zip(scores, rows)))
  {
    match LastRecordScores(records)
    case Err(e) => Err(e)
    case Ok(scores) =>
      OrderByKlSpec(scores, rows);
      OrderByKl(scores, rows)
  }
}
