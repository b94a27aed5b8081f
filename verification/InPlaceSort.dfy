/** The in-place merge sort shared by LL_SORT2, DL_SORT2, CDL_SORT2 and
    HASH_SRT: the part that cuts runs and relinks elements.  The macros differ
    in two points.  `stop` is how a run recognises the end of the list: null,
    but for CDL_SORT2 the old head, because its list is still a ring while links
    are being rewired.  `dbl` says whether `prev` is maintained: not in LL_SORT2. */
module InPlaceSort {
  import opened Elements
  import opened MergeSort
  import opened Order

  /** `stop` marks the end of the list: null, or an element that does not
      occur where a run is being read. */
  ghost predicate StopsAfter(stop: Elem?, s: seq<Elem>) {
    stop == null || stop !in s
  }

  /** q := q.next, with the end of the list mapped to null. */
  method Advance(q: Elem, stop: Elem?, ghost s: seq<Elem>) returns (r: Elem?)
    requires s != [] && q == s[0] && Chain(s, stop) && StopsAfter(stop, s[1..])
    ensures r == First(s[1..])
  {
    r := q.next;
    assert |s| > 1 ==> s[1..][0] == s[1];
    if r == stop { r := null; }
  }

  lemma SuffixOfChain(s: seq<Elem>, stop: Elem?, i: nat)
    requires i < |s| && Chain(s, stop) && StopsAfter(stop, s[1..])
    ensures Chain(s[i..], stop) && StopsAfter(stop, s[i..][1..])
    ensures s[i..][1..] == s[i + 1..]
  {
    forall j | 0 <= j < |s[i..][1..]| ensures s[i..][1..][j] in s[1..] {
      assert s[i..][1..][j] == s[1..][i + j];
    }
    forall j | 0 <= j < |s[i..]|
      ensures s[i..][j].next == if j + 1 < |s[i..]| then s[i..][j + 1] else stop
    {
      assert s[i..][j] == s[i + j];
    }
  }

  /** The `for` loop that measures a run of at most `k` elements from `p`. */
  method TakeRun(p: Elem, k: nat, stop: Elem?, ghost s: seq<Elem>) returns (q: Elem?, psize: nat)
    requires k > 0 && s != [] && p == s[0] && Chain(s, stop) && StopsAfter(stop, s[1..])
    ensures q == First(Drop(k, s)) && psize == |Take(k, s)|
  {
    q, psize := p, 0;
    var i := 0;
    while i < k
      invariant 0 <= i == psize <= k && i < |s| && q == s[i]
      decreases k - i
    {
      psize := psize + 1;
      SuffixOfChain(s, stop, i);
      q := Advance(q, stop, s[i..]);
      i := i + 1;
      if q == null { return; }
    }
  }

  /** The output list so far: `done`, with `tail.next` not yet settled. */
  ghost predicate Output(dbl: bool, list: Elem?, tail: Elem?, done: seq<Elem>)
    reads done`next, done`prev
  {
    list == First(done) && tail == Last(done) && Linked(done) && (dbl ==> Back(done, null))
  }

  /** Both ends of the output are output elements. */
  lemma OutputEnds(dbl: bool, list: Elem?, tail: Elem?, done: seq<Elem>)
    requires Output(dbl, list, tail, done) && done != []
    ensures list in Elems(done) && tail in Elems(done)
  {
  }

  /** Append `e` to the output list, whose elements so far are `done`: the
      one place where a sort moves an element, and where moves are counted. */
  method Emit(dbl: bool, list: Elem?, tail: Elem?, e: Elem, ghost done: seq<Elem>, ghost moves: nat)
    returns (list': Elem?, ghost moves': nat)
    requires Output(dbl, list, tail, done) && Distinct(done) && e !in done
    modifies Elems(done)`next, e`prev
    ensures Output(dbl, list', e, done + [e]) && moves' == moves + 1
  {
    list', moves' := list, moves + 1;
    if tail != null {
      tail.next := e;
    } else {
      list' := e;
    }
    if dbl { e.prev := tail; }
    assert dbl ==> Back(done, null);
    var all := done + [e];
    forall i | 0 <= i < |all| && dbl ensures all[i].prev == if i == 0 then null else all[i - 1] {
      if i < |done| { assert all[i] == done[i]; }
    }
  }

  // ------------------------------------------------------------ one merge

  /** The cursor `p` with `psize` elements left reads exactly `ps`. */
  ghost predicate Left(p: Elem?, psize: nat, stop: Elem?, ps: seq<Elem>)
    reads ps`next
  {
    && psize == |ps|
    && (ps != [] ==> p == ps[0])
    && Linked(ps)
    && (ps != [] ==> StopsAfter(stop, ps[1..]))
  }

  /** The cursor `q` with `qsize` elements left reads `qr`, and then the list goes on with `rest`. */
  ghost predicate Right(q: Elem?, qsize: nat, stop: Elem?, qr: seq<Elem>, rest: seq<Elem>)
    reads (qr + rest)`next
  {
    && q == First(qr + rest)
    && Chain(qr + rest, stop)
    && StopsAfter(stop, qr + rest)
    && (qsize == |qr| || (rest == [] && qsize >= |qr|))
  }

  /** Choose the next element to emit and step over it. */
  method Pick(cmp: (Elem, Elem) -> int, p: Elem?, q: Elem?, psize: nat, qsize: nat, stop: Elem?,
              ghost ps: seq<Elem>, ghost qr: seq<Elem>, ghost rest: seq<Elem>)
    returns (e: Elem, p': Elem?, q': Elem?, psize': nat, qsize': nat, ghost ps': seq<Elem>, ghost qr': seq<Elem>)
    requires Left(p, psize, stop, ps) && Right(q, qsize, stop, qr, rest)
    requires psize > 0 || (qsize > 0 && q != null)
    ensures Left(p', psize', stop, ps') && Right(q', qsize', stop, qr', rest)
    ensures Merge(cmp, ps, qr) == [e] + Merge(cmp, ps', qr')
    ensures (ps == [e] + ps' && qr == qr') || (ps == ps' && qr == [e] + qr')
  {
    p', q', psize', qsize', ps', qr' := p, q, psize, qsize, ps, qr;
    if psize == 0 {
      e, q', qsize', qr' := StepRight(q, qsize, stop, qr, rest);
    } else if qsize == 0 || q == null {
      e, p', psize', ps' := StepLeft(p, psize, stop, ps);
    } else if cmp(p, q) <= 0 {
      e, p', psize', ps' := StepLeft(p, psize, stop, ps);
    } else {
      e, q', qsize', qr' := StepRight(q, qsize, stop, qr, rest);
    }
  }

  method StepLeft(p: Elem?, psize: nat, stop: Elem?, ghost ps: seq<Elem>)
    returns (e: Elem, p': Elem?, psize': nat, ghost ps': seq<Elem>)
    requires Left(p, psize, stop, ps) && ps != []
    ensures Left(p', psize', stop, ps') && ps == [e] + ps'
  {
    e, p', psize', ps' := p, p.next, psize - 1, ps[1..];
    assert ps' != [] ==> ps[0].next == ps[1] == ps'[0];
    if p' == stop { p' := null; }
    forall i | 0 <= i < |ps'| - 1 ensures ps'[i].next == ps'[i + 1] {
      assert ps[i + 1].next == ps[i + 2];
    }
  }

  method StepRight(q: Elem?, qsize: nat, stop: Elem?, ghost qr: seq<Elem>, ghost rest: seq<Elem>)
    returns (e: Elem, q': Elem?, qsize': nat, ghost qr': seq<Elem>)
    requires Right(q, qsize, stop, qr, rest) && qsize > 0 && q != null
    ensures Right(q', qsize', stop, qr', rest) && qr == [e] + qr'
  {
    ghost var all := qr + rest;
    e, qsize', qr' := q, qsize - 1, qr[1..];
    assert all[1..] == qr' + rest;
    TailOfChain(all, stop);
    q' := Advance(q, stop, all);
  }

  lemma TailOfChain(s: seq<Elem>, stop: Elem?)
    requires s != [] && Chain(s, stop) && StopsAfter(stop, s)
    ensures Chain(s[1..], stop) && StopsAfter(stop, s[1..])
  {
    forall j {:trigger s[1..][j].next} | 0 <= j < |s[1..]|
      ensures s[1..][j].next == if j + 1 < |s[1..]| then s[1..][j + 1] else stop
    {
      assert s[1..][j] == s[1 + j];
    }
  }

  ghost predicate Parts(done: seq<Elem>, ps: seq<Elem>, qs: seq<Elem>) {
    && Distinct(done) && Distinct(ps) && Distinct(qs)
    && Apart(done, ps) && Apart(done, qs) && Apart(ps, qs)
  }

  lemma PartsStep(done: seq<Elem>, ps: seq<Elem>, qr: seq<Elem>, rest: seq<Elem>,
                  e: Elem, ps': seq<Elem>, qr': seq<Elem>)
    requires Parts(done, ps, qr + rest)
    requires (ps == [e] + ps' && qr == qr') || (ps == ps' && qr == [e] + qr')
    ensures Distinct(done) && e !in done
    ensures Parts(done + [e], ps', qr' + rest)
    ensures Elems(done) <= Elems(done + ps + qr) && e in Elems(done + ps + qr)
    ensures Elems(done) !! Elems(qr' + rest) && Elems(done) !! Elems(ps')
  {
    assert e in ps || e in qr;
    if qr == [e] + qr' {
      assert qr + rest == [e] + (qr' + rest);
      DistinctTail(e, qr' + rest);
    } else {
      DistinctTail(e, ps');
    }
  }

  lemma DistinctTail<T>(e: T, s: seq<T>)
    requires Distinct([e] + s)
    ensures Distinct(s) && e !in s
  {
    var t := [e] + s;
    forall i | 0 <= i < |s| ensures s[i] != e && forall j :: i < j < |s| ==> s[i] != s[j] {
      assert t[i + 1] == s[i] && t[0] != t[i + 1];
      forall j | i < j < |s| ensures s[i] != s[j] {
        assert t[j + 1] == s[j];
      }
    }
  }

  /** One turn of the merge loop. */
  method MergeStep(dbl: bool, cmp: (Elem, Elem) -> int, p: Elem?, q: Elem?, psize: nat, qsize: nat, stop: Elem?,
                   list: Elem?, tail: Elem?,
                   ghost done: seq<Elem>, ghost ps: seq<Elem>, ghost qr: seq<Elem>, ghost rest: seq<Elem>,
                   ghost moves: nat)
    returns (p': Elem?, q': Elem?, psize': nat, qsize': nat, list': Elem?, tail': Elem,
             ghost ps': seq<Elem>, ghost qr': seq<Elem>, ghost moves': nat)
    requires Left(p, psize, stop, ps) && Right(q, qsize, stop, qr, rest)
    requires Parts(done, ps, qr + rest) && Output(dbl, list, tail, done)
    requires psize > 0 || (qsize > 0 && q != null)
    modifies Elems(done + ps + qr)`next, Elems(done + ps + qr)`prev
    ensures Left(p', psize', stop, ps') && Right(q', qsize', stop, qr', rest)
    ensures Parts(done + [tail'], ps', qr' + rest) && Output(dbl, list', tail', done + [tail'])
    ensures Merge(cmp, ps, qr) == [tail'] + Merge(cmp, ps', qr')
    ensures (ps == [tail'] + ps' && qr == qr') || (ps == ps' && qr == [tail'] + qr')
    ensures moves' == moves + 1
  {
    hide Parts, Distinct, Apart, StopsAfter, Merge, Output, Left, Right, Chain, Linked;
    tail', p', q', psize', qsize', ps', qr' := Pick(cmp, p, q, psize, qsize, stop, ps, qr, rest);
    PartsStep(done, ps, qr, rest, tail', ps', qr');
    list', moves' := Emit(dbl, list, tail, tail', done, moves);
  }

  ghost predicate Inside<T>(s: seq<T>, t: seq<T>) {
    forall x :: x in s ==> x in t
  }

  lemma InsideRefl<T>(s: seq<T>)
    ensures Inside(s, s)
  {
  }

  lemma InsideElems(s: seq<Elem>, t: seq<Elem>)
    requires Inside(s, t)
    ensures Elems(s) <= Elems(t)
  {
  }

  lemma InsideStep<T>(done: seq<T>, ps: seq<T>, qr: seq<T>, e: T, ps': seq<T>, qr': seq<T>, all: seq<T>)
    requires (ps == [e] + ps' && qr == qr') || (ps == ps' && qr == [e] + qr')
    requires Inside(done + ps + qr, all)
    ensures Inside((done + [e]) + ps' + qr', all)
  {
    assert e in ps || e in qr;
    forall x | x in (done + [e]) + ps' + qr' ensures x in all {
      assert x in done || x == e || x in ps' || x in qr';
      assert x in done + ps + qr;
    }
  }

  /** Where a merge of elements of `all` into `target` stands: `done` is out,
      `ps` and `qr` are still to be merged. */
  ghost predicate Merging(cmp: (Elem, Elem) -> int, done: seq<Elem>, ps: seq<Elem>, qr: seq<Elem>,
                          all: seq<Elem>, target: seq<Elem>)
  {
    done + Merge(cmp, ps, qr) == target && Inside(done + ps + qr, all)
  }

  /** Of `n` elements, `moves` have been moved and those of `ps` and `qr` have not. */
  ghost predicate Tally(moves: nat, ps: seq<Elem>, qr: seq<Elem>, n: nat) {
    moves + |ps| + |qr| == n
  }

  lemma MergingStart(cmp: (Elem, Elem) -> int, done: seq<Elem>, ps: seq<Elem>, qr: seq<Elem>)
    ensures Merging(cmp, done, ps, qr, done + ps + qr, done + Merge(cmp, ps, qr)) && Tally(0, ps, qr, |ps| + |qr|)
  {
    InsideRefl(done + ps + qr);
  }

  lemma MergingInside(cmp: (Elem, Elem) -> int, done: seq<Elem>, ps: seq<Elem>, qr: seq<Elem>,
                      all: seq<Elem>, target: seq<Elem>)
    requires Merging(cmp, done, ps, qr, all, target)
    ensures Elems(done + ps + qr) <= Elems(all)
  {
    InsideElems(done + ps + qr, all);
  }

  lemma MergingStep(cmp: (Elem, Elem) -> int, done: seq<Elem>, ps: seq<Elem>, qr: seq<Elem>,
                    e: Elem, ps': seq<Elem>, qr': seq<Elem>, all: seq<Elem>, target: seq<Elem>)
    requires Merging(cmp, done, ps, qr, all, target)
    requires Merge(cmp, ps, qr) == [e] + Merge(cmp, ps', qr')
    requires (ps == [e] + ps' && qr == qr') || (ps == ps' && qr == [e] + qr')
    ensures Merging(cmp, done + [e], ps', qr', all, target)
  {
    hide Merge, Inside;
    InsideStep(done, ps, qr, e, ps', qr', all);
    Regroup(done, [e], Merge(cmp, ps', qr'));
  }

  lemma TallyStep(moves: nat, ps: seq<Elem>, qr: seq<Elem>, e: Elem, ps': seq<Elem>, qr': seq<Elem>, n: nat)
    requires Tally(moves, ps, qr, n)
    requires (ps == [e] + ps' && qr == qr') || (ps == ps' && qr == [e] + qr')
    ensures Tally(moves + 1, ps', qr', n) && |ps'| + |qr'| < |ps| + |qr|
  {
    if qr == qr' {
      assert |ps| == 1 + |ps'|;
    } else {
      assert |qr| == 1 + |qr'|;
    }
  }

  /** When the loop guard is false both runs have been read. */
  lemma MergeEnd(cmp: (Elem, Elem) -> int, p: Elem?, q: Elem?, psize: nat, qsize: nat, stop: Elem?,
                 done: seq<Elem>, ps: seq<Elem>, qr: seq<Elem>, rest: seq<Elem>,
                 all: seq<Elem>, target: seq<Elem>, n: nat, moves: nat)
    requires Left(p, psize, stop, ps) && Right(q, qsize, stop, qr, rest)
    requires Merging(cmp, done, ps, qr, all, target) && Tally(moves, ps, qr, n)
    requires !(psize > 0 || (qsize > 0 && q != null))
    ensures ps == [] && qr + rest == rest && q == First(rest) && Chain(rest, stop)
    ensures done == target && moves == n
  {
    assert qr + rest == rest;
    assert done + Merge(cmp, ps, qr) == done;
  }

  /** Merge one pair of runs onto the output list. */
  method MergeRuns(dbl: bool, cmp: (Elem, Elem) -> int, p0: Elem, q0: Elem?, psize0: nat, qsize0: nat, stop: Elem?,
                   list0: Elem?, tail0: Elem?,
                   ghost done0: seq<Elem>, ghost ps0: seq<Elem>, ghost qr0: seq<Elem>, ghost rest: seq<Elem>)
    returns (list: Elem?, tail: Elem?, q: Elem?, ghost moves: nat)
    requires Left(p0, psize0, stop, ps0) && Right(q0, qsize0, stop, qr0, rest)
    requires Parts(done0, ps0, qr0 + rest) && Output(dbl, list0, tail0, done0)
    modifies Elems(done0 + ps0 + qr0)`next, Elems(done0 + ps0 + qr0)`prev
    ensures Output(dbl, list, tail, done0 + Merge(cmp, ps0, qr0))
    ensures Parts(done0 + Merge(cmp, ps0, qr0), [], rest)
    ensures q == First(rest) && Chain(rest, stop)
    ensures moves == |ps0| + |qr0|
  {
    ghost var done: seq<Elem>, ps, qr := done0, ps0, qr0;
    ghost var all, target, n := done0 + ps0 + qr0, done0 + Merge(cmp, ps0, qr0), |ps0| + |qr0|;
    var p: Elem?, psize, qsize := p0, psize0, qsize0;
    list, tail, q, moves := list0, tail0, q0, 0;
    MergingStart(cmp, done, ps, qr);
    hide Parts, Distinct, Apart, Output, Chain, StopsAfter, Left, Right, Merge, Inside, Merging, Tally;
    while psize > 0 || (qsize > 0 && q != null)
      invariant Left(p, psize, stop, ps) && Right(q, qsize, stop, qr, rest)
      invariant Parts(done, ps, qr + rest) && Output(dbl, list, tail, done)
      invariant Merging(cmp, done, ps, qr, all, target) && Tally(moves, ps, qr, n)
      decreases |ps| + |qr|
    {
      MergingInside(cmp, done, ps, qr, all, target);
      ghost var ps', qr';
      var e;
      ghost var m := moves;
      p, q, psize, qsize, list, e, ps', qr', moves :=
        MergeStep(dbl, cmp, p, q, psize, qsize, stop, list, tail, done, ps, qr, rest, moves);
      MergingStep(cmp, done, ps, qr, e, ps', qr', all, target);
      TallyStep(m, ps, qr, e, ps', qr', n);
      tail := e;
      done, ps, qr := done + [e], ps', qr';
    }
    MergeEnd(cmp, p, q, psize, qsize, stop, done, ps, qr, rest, all, target, n, moves);
  }

  // ------------------------------------------------------------ one pass

  lemma CutLinks(stop: Elem?, s: seq<Elem>, xs: seq<Elem>, qs: seq<Elem>)
    requires s == xs + qs && xs != [] && Chain(s, stop) && StopsAfter(stop, s[1..])
    ensures Linked(xs) && StopsAfter(stop, xs[1..]) && Chain(qs, stop) && StopsAfter(stop, qs)
  {
    assert Chain(qs, stop) by {
      forall j {:trigger qs[j].next} | 0 <= j < |qs|
        ensures qs[j].next == if j + 1 < |qs| then qs[j + 1] else stop
      {
        assert qs[j] == s[|xs| + j];
      }
    }
    assert Linked(xs) by {
      forall j {:trigger xs[j].next} | 0 <= j < |xs| - 1 ensures xs[j].next == xs[j + 1] {
        assert xs[j] == s[j];
      }
    }
    assert s[1..] == xs[1..] + qs;
  }

  lemma CutParts(done: seq<Elem>, s: seq<Elem>, xs: seq<Elem>, qs: seq<Elem>)
    requires s == xs + qs && Parts(done, [], s)
    ensures Parts(done, xs, qs)
  {
    assert forall j :: 0 <= j < |xs| ==> xs[j] == s[j];
    assert forall j :: 0 <= j < |qs| ==> qs[j] == s[|xs| + j];
  }

  /** Cutting two runs off the list `s` leaves a proper left run, right run and rest. */
  lemma CutRuns(k: nat, stop: Elem?, s: seq<Elem>, done: seq<Elem>)
    requires k > 0 && s != [] && Chain(s, stop) && StopsAfter(stop, s[1..]) && Parts(done, [], s)
    ensures var xs, ys, zs := Take(k, s), Take(k, Drop(k, s)), Drop(k, Drop(k, s));
            && s == xs + (ys + zs)
            && Left(s[0], |xs|, stop, xs)
            && Right(First(Drop(k, s)), k, stop, ys, zs)
            && Parts(done, xs, ys + zs)
  {
    var xs, ys, zs := Take(k, s), Take(k, Drop(k, s)), Drop(k, Drop(k, s));
    TakeDrop(k, s);
    TakeDrop(k, Drop(k, s));
    CutLinks(stop, s, xs, ys + zs);
    CutParts(done, s, xs, ys + zs);
    hide Parts, Linked, Chain, StopsAfter;
  }

  lemma RunsInside(stop: Elem?, done: seq<Elem>, s: seq<Elem>, xs: seq<Elem>, ys: seq<Elem>, zs: seq<Elem>)
    requires s == xs + (ys + zs) && StopsAfter(stop, ys + zs)
    ensures Elems(done + xs + ys) <= Elems(done + s)
    ensures zs != [] ==> StopsAfter(stop, zs[1..])
  {
    assert done + s == done + xs + ys + zs;
    assert forall x :: x in zs ==> x in ys + zs;
  }

  /** The two runs at the front of `s`, merged, and what follows them. */
  ghost function Merged(cmp: (Elem, Elem) -> int, k: nat, s: seq<Elem>): seq<Elem> {
    Merge(cmp, Take(k, s), Take(k, Drop(k, s)))
  }

  ghost function Beyond(k: nat, s: seq<Elem>): seq<Elem> {
    Drop(k, Drop(k, s))
  }

  lemma MergedInside(cmp: (Elem, Elem) -> int, k: nat, done: seq<Elem>, s: seq<Elem>)
    ensures Inside(done + Merged(cmp, k, s) + Beyond(k, s), done + s)
    ensures |Merged(cmp, k, s)| + |Beyond(k, s)| == |s|
  {
    var xs, ys, zs, m := Take(k, s), Take(k, Drop(k, s)), Beyond(k, s), Merged(cmp, k, s);
    TakeDrop(k, s);
    TakeDrop(k, Drop(k, s));
    MergeLength(cmp, xs, ys);
    forall x | x in done + m + zs ensures x in done + s {
      if x in m {
        assert x in multiset(m);
        assert x in xs || x in ys;
      }
      assert x in done || x in xs || x in ys + zs;
      assert x in done || x in xs + (ys + zs);
    }
  }

  lemma PassUnfold(cmp: (Elem, Elem) -> int, k: nat, done: seq<Elem>, s: seq<Elem>, all: seq<Elem>)
    requires k > 0 && s != [] && Inside(done + s, all)
    ensures (done + Merged(cmp, k, s)) + Pass(cmp, k, Beyond(k, s)) == done + Pass(cmp, k, s)
    ensures Inside(done + Merged(cmp, k, s) + Beyond(k, s), all)
    ensures |Merged(cmp, k, s)| + |Beyond(k, s)| == |s|
    ensures |Beyond(k, s)| == if |s| <= 2 * k then 0 else |s| - 2 * k
    ensures Elems(done + s) <= Elems(all)
  {
    MergedInside(cmp, k, done, s);
    Regroup(done, Merged(cmp, k, s), Pass(cmp, k, Beyond(k, s)));
  }

  /** Merge the next pair of runs of a pass. */
  method PassStep(dbl: bool, cmp: (Elem, Elem) -> int, p: Elem, k: nat, stop: Elem?, list0: Elem?, tail0: Elem?,
                  ghost done: seq<Elem>, ghost s: seq<Elem>)
    returns (list: Elem?, tail: Elem?, p': Elem?, ghost moves: nat)
    requires k > 0 && s != [] && p == s[0] && Chain(s, stop) && StopsAfter(stop, s[1..])
    requires Parts(done, [], s) && Output(dbl, list0, tail0, done)
    modifies Elems(done + s)`next, Elems(done + s)`prev
    ensures Output(dbl, list, tail, done + Merged(cmp, k, s)) && Parts(done + Merged(cmp, k, s), [], Beyond(k, s))
    ensures p' == First(Beyond(k, s)) && Chain(Beyond(k, s), stop)
    ensures Beyond(k, s) != [] ==> StopsAfter(stop, Beyond(k, s)[1..])
    ensures moves + |Beyond(k, s)| == |s|
  {
    ghost var xs, ys, zs := Take(k, s), Take(k, Drop(k, s)), Beyond(k, s);
    CutRuns(k, stop, s, done);
    RunsInside(stop, done, s, xs, ys, zs);
    hide Parts, Left, Right, Chain, Output, StopsAfter, Take, Drop;
    var q, psize := TakeRun(p, k, stop, s);
    list, tail, p', moves := MergeRuns(dbl, cmp, p, q, psize, k, stop, list0, tail0, done, xs, ys, zs);
  }

  lemma PassStart(dbl: bool, s: seq<Elem>, t: seq<Elem>)
    requires Distinct(s)
    ensures Parts([], [], s) && Output(dbl, null, null, []) && Inside([] + s, s) && [] + t == t
  {
  }

  lemma PassEnd(dbl: bool, cmp: (Elem, Elem) -> int, k: nat, list: Elem?, tail: Elem?, done: seq<Elem>, s: seq<Elem>)
    requires k > 0 && s != [] && Parts(done, [], []) && Output(dbl, list, tail, done)
    requires done + Pass(cmp, k, []) == Pass(cmp, k, s)
    ensures done == Pass(cmp, k, s) && Distinct(done) && list != null && tail != null
  {
    PassPermutes(cmp, k, s);
    assert done + [] == done;
  }

  /** One turn of the outer loop: merge all pairs of runs of length `k`. */
  method SortPass(dbl: bool, cmp: (Elem, Elem) -> int, p0: Elem, k: nat, stop: Elem?, ghost s: seq<Elem>)
    returns (list: Elem, tail: Elem, nmerges: nat, ghost moves: nat)
    requires k > 0 && s != [] && p0 == s[0] && Chain(s, stop) && Distinct(s) && StopsAfter(stop, s[1..])
    modifies Elems(s)`next, Elems(s)`prev
    ensures Output(dbl, list, tail, Pass(cmp, k, s)) && Distinct(Pass(cmp, k, s))
    ensures nmerges <= 1 <==> |s| <= 2 * k
    ensures moves == |s|
  {
    var list': Elem?, tail': Elem?, p: Elem? := null, null, p0;
    nmerges, moves := 0, 0;
    ghost var done: seq<Elem>, rest := [], s;
    PassStart(dbl, s, Pass(cmp, k, s));
    hide Parts, Distinct, Apart, Output, Chain, StopsAfter, Merged, Beyond, Inside, Pass;
    while p != null
      invariant p == First(rest) && Chain(rest, stop) && (rest != [] ==> StopsAfter(stop, rest[1..]))
      invariant Parts(done, [], rest) && Output(dbl, list', tail', done)
      invariant done + Pass(cmp, k, rest) == Pass(cmp, k, s)
      invariant Inside(done + rest, s)
      invariant moves + |rest| == |s|
      invariant Merges(nmerges, k, |s|, |rest|)
      decreases |rest|
    {
      PassUnfold(cmp, k, done, rest, s);
      ghost var m;
      list', tail', p, m := PassStep(dbl, cmp, p, k, stop, list', tail', done, rest);
      nmerges, moves := nmerges + 1, moves + m;
      done, rest := done + Merged(cmp, k, rest), Beyond(k, rest);
    }
    PassEnd(dbl, cmp, k, list', tail', done, s);
    list, tail := list', tail';
  }

  /** How many merges have been made when `left` of `n` elements remain. */
  ghost predicate Merges(nmerges: nat, k: nat, n: nat, left: nat) {
    && (nmerges == 0 ==> left == n)
    && (nmerges == 1 ==> left == if n <= 2 * k then 0 else n - 2 * k)
    && (nmerges > 1 ==> n > 2 * k)
  }

  // ------------------------------------------------------------ all passes

  /** Where a sort of `s` stands: the list is `t`, the next run length is `k`,
      and `passes` passes have emitted `moves` elements. */
  ghost predicate SortState(cmp: (Elem, Elem) -> int, s: seq<Elem>, t: seq<Elem>, k: nat, looping: bool,
                            passes: nat, moves: nat)
  {
    && t != [] && k > 0 && |t| == |s| && multiset(t) == multiset(s)
    && (looping ==> BottomUp(cmp, k, t) == Sort(cmp, s) && passes + Passes(k, |s|) == Passes(1, |s|))
    && (!looping ==> t == Sort(cmp, s) && passes == Passes(1, |s|))
    && moves == |s| * passes
  }

  /** The turns of the outer loop that are still to come. */
  ghost function TurnsLeft(looping: bool, k: nat, n: nat): nat {
    if looping && k > 0 then Passes(k, n) else 0
  }

  lemma SortStart(cmp: (Elem, Elem) -> int, s: seq<Elem>)
    requires s != []
    ensures SortState(cmp, s, s, 1, true, 0, 0)
  {
  }

  lemma SortStep(cmp: (Elem, Elem) -> int, s: seq<Elem>, t: seq<Elem>, k: nat, passes: nat, moves: nat)
    requires SortState(cmp, s, t, k, true, passes, moves)
    ensures k > 0 && t != [] && Pass(cmp, k, t) != [] && |t| == |s|
    ensures SortState(cmp, s, Pass(cmp, k, t), k * 2, |s| > 2 * k, passes + 1, moves + |t|)
    ensures Elems(t) == Elems(s) == Elems(Pass(cmp, k, t))
  {
    hide Pass;
    PassPermutes(cmp, k, t);
    ElemsOfPermutation(s, t);
    ElemsOfPermutation(s, Pass(cmp, k, t));
    assert |s| * (passes + 1) == |s| * passes + |s|;
    assert k * 2 == 2 * k;
  }

  lemma ElemsOfPermutation(s: seq<Elem>, t: seq<Elem>)
    requires multiset(s) == multiset(t)
    ensures Elems(s) == Elems(t) && |s| == |t|
  {
    SameElements(s, t);
    assert forall x :: x in Elems(s) <==> x in Elems(t);
  }

  lemma SortEnd(cmp: (Elem, Elem) -> int, s: seq<Elem>, t: seq<Elem>, k: nat, passes: nat, moves: nat)
    requires SortState(cmp, s, t, k, false, passes, moves)
    ensures t == Sort(cmp, s) && passes == Passes(1, |s|) && moves == |s| * passes
  {
  }
}
