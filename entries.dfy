/** The `{"<key>": ..., "<count>": n}` rows the detectors report, and their order: most frequent
    first, as `sort(key=lambda x: x[count], reverse=True)` leaves them. */
module Entries {
  import opened Seqs
  import opened Sorting
  import opened Dicts

  datatype Entry = Entry(key: string, count: nat)

  /** The order of a stable sort on the count, largest first. Python keeps equal elements in their
      original order even with `reverse=True`, which is what a stable sort by `>=` does. */
  predicate CountGe(a: Entry, b: Entry) {
    a.count >= b.count
  }

  /** `count > 1` / `len(uids) > 1`: the key occurs more than once. */
  predicate Repeated(e: Entry) {
    e.count > 1
  }

  lemma CountGeTotalPreorder()
    ensures TotalPreorder(CountGe)
  {
  }

  /** `[(k, len(d[k])) for k in d]`. */
  function SizesOf(d: SetDict<string, string>): (es: seq<Entry>)
    ensures |es| == |d.keys|
    ensures forall i | 0 <= i < |es| :: es[i] == Entry(d.keys[i], |SetOf(d, d.keys[i])|)
  {
    seq(|d.keys|, i requires 0 <= i < |d.keys| => Entry(d.keys[i], |SetOf(d, d.keys[i])|))
  }

  /** `counts.items()`. */
  function TalliesOf(d: CountDict<string>): (es: seq<Entry>)
    ensures |es| == |d.keys|
    ensures forall i | 0 <= i < |es| :: es[i] == Entry(d.keys[i], CountOf(d, d.keys[i]))
  {
    seq(|d.keys|, i requires 0 <= i < |d.keys| => Entry(d.keys[i], CountOf(d, d.keys[i])))
  }

  /** `sorted(es, key=count, reverse=True)`. */
  function RankDesc(es: seq<Entry>): seq<Entry> {
    SortBy(es, CountGe)
  }

  /** Ranking orders by decreasing count, keeps exactly the same entries, and keeps entries of equal
      count in their original order. */
  lemma RankDescProps(es: seq<Entry>)
    ensures |RankDesc(es)| == |es|
    ensures forall i, j | 0 <= i < j < |RankDesc(es)| :: RankDesc(es)[i].count >= RankDesc(es)[j].count
    ensures forall e :: e in RankDesc(es) <==> e in es
    ensures multiset(RankDesc(es)) == multiset(es)
    ensures forall c :: Filter(RankDesc(es), EqClass(CountGe, c)) == Filter(es, EqClass(CountGe, c))
  {
    CountGeTotalPreorder();
    SortBySorted(es, CountGe);
    SortByMembers(es, CountGe);
    SortByPermutes(es, CountGe);
    forall c ensures Filter(RankDesc(es), EqClass(CountGe, c)) == Filter(es, EqClass(CountGe, c)) {
      SortByStable(es, CountGe, c);
    }
  }

  /** The first `n` ranked entries: `min(n, |es|)` of them, each with a count at least that of
      every entry left out; an entry is left out only when all `n` places are taken. */
  lemma TopRanked(es: seq<Entry>, n: nat)
    ensures |Take(RankDesc(es), n)| == if |es| <= n then |es| else n
    ensures forall i, j | 0 <= i < j < |Take(RankDesc(es), n)| :: Take(RankDesc(es), n)[i].count >= Take(RankDesc(es), n)[j].count
    ensures forall e | e in Take(RankDesc(es), n) :: e in es
    ensures forall y | y in es && y !in Take(RankDesc(es), n) :: |Take(RankDesc(es), n)| == n
    ensures forall x, y | x in Take(RankDesc(es), n) && y in es && y !in Take(RankDesc(es), n) :: x.count >= y.count
  {
    var r := RankDesc(es);
    var t := Take(r, n);
    RankDescProps(es);
    forall y | y in es && y !in t ensures |t| == n {
      assert y in r;
    }
    forall x, y | x in t && y in es && y !in t ensures x.count >= y.count {
      var i :| 0 <= i < |t| && t[i] == x;
      var j :| 0 <= j < |r| && r[j] == y;
      assert r[i] == x;
    }
  }
}
