/** Sequences with some elements left out, in order. */
module Subsequences {

  /** `a` is `b` with some elements left out. */
  predicate Sub<T(==)>(a: seq<T>, b: seq<T>) {
    a == [] || (b != [] && if a[0] == b[0] then Sub(a[1..], b[1..]) else Sub(a, b[1..]))
  }

  /** And what is left out is `out`. */
  predicate Parts<T(==)>(a: seq<T>, out: seq<T>, b: seq<T>) {
    Sub(a, b) && multiset(a) + multiset(out) == multiset(b)
  }

  lemma {:induction false} SubTail<T>(a: seq<T>, b: seq<T>)
    requires a != [] && Sub(a, b)
    ensures Sub(a[1..], b)
    decreases |b|, 0
  {
    if a[0] != b[0] { SubTail(a, b[1..]); }
    SubDrop(a[1..], b);
  }

  lemma {:induction false} SubDrop<T>(a: seq<T>, b: seq<T>)
    requires b != [] && Sub(a, b[1..])
    ensures Sub(a, b)
    decreases |b| - 1, 1
  {
    if a != [] && a[0] == b[0] { SubTail(a, b[1..]); }
  }

  lemma {:induction false} SubSelf<T>(a: seq<T>)
    ensures Sub(a, a)
  {
    if a != [] { SubSelf(a[1..]); }
  }

  lemma {:induction false} SubSuffix<T>(a: seq<T>, b: seq<T>)
    ensures Sub(b, a + b)
  {
    if a == [] {
      assert a + b == b;
      SubSelf(b);
    } else {
      SubSuffix(a[1..], b);
      assert (a + b)[1..] == a[1..] + b;
      SubDrop(b, a + b);
    }
  }

  lemma {:induction false} SubAppend<T>(a: seq<T>, b: seq<T>, c: seq<T>)
    requires Sub(a, b)
    ensures Sub(a + c, b + c)
    decreases |b|
  {
    if a == [] {
      assert a + c == c;
      SubSuffix(b, c);
    } else {
      assert (a + c)[1..] == a[1..] + c && (b + c)[1..] == b[1..] + c;
      SubAppend(if a[0] == b[0] then a[1..] else a, b[1..], c);
    }
  }

  lemma {:induction false} SubPrepend<T>(g: seq<T>, a: seq<T>, b: seq<T>)
    requires Sub(a, b)
    ensures Sub(g + a, g + b)
  {
    if g == [] {
      assert g + a == a && g + b == b;
    } else {
      SubPrepend(g[1..], a, b);
      assert (g + a)[1..] == g[1..] + a && (g + b)[1..] == g[1..] + b;
    }
  }

  lemma {:induction false} SubTrans<T>(a: seq<T>, b: seq<T>, c: seq<T>)
    requires Sub(a, b) && Sub(b, c)
    ensures Sub(a, c)
    decreases |c|
  {
    if a != [] {
      if b[0] == c[0] {
        SubTrans(if a[0] == b[0] then a[1..] else a, b[1..], c[1..]);
      } else {
        SubTrans(a, b, c[1..]);
        SubDrop(a, c);
      }
    }
  }

  lemma PartsAppend<T>(a: seq<T>, out: seq<T>, b: seq<T>, c: seq<T>)
    requires Parts(a, out, b)
    ensures Parts(a + c, out, b + c)
  {
    SubAppend(a, b, c);
  }

  lemma PartsPrepend<T>(g: seq<T>, a: seq<T>, out: seq<T>, b: seq<T>)
    requires Parts(a, out, b)
    ensures Parts(g + a, out, g + b)
  {
    SubPrepend(g, a, b);
  }

  lemma PartsTrans<T>(a: seq<T>, out: seq<T>, b: seq<T>, more: seq<T>, c: seq<T>)
    requires Parts(a, out, b) && Parts(b, more, c)
    ensures Parts(a, more + out, c)
  {
    SubTrans(a, b, c);
  }

  lemma PartsSelf<T>(a: seq<T>)
    ensures Parts(a, [], a)
  {
    SubSelf(a);
  }

  /** A front `g` is followed by `q`; `q` and more `p'` lose `out'` and become `g'` and `q'`. */
  lemma PartsChain<T>(g: seq<T>, q: seq<T>, out: seq<T>, all: seq<T>, g': seq<T>, q': seq<T>, out': seq<T>, p': seq<T>)
    requires Parts(g + q, out, all) && Parts(g' + q', out', q + p')
    ensures Parts((g + g') + q', out + out', all + p')
  {
    PartsPrepend(g, g' + q', out', q + p');
    PartsAppend(g + q, out, all, p');
    Regroup(g, g', q');
    Regroup(g, q, p');
    PartsTrans((g + g') + q', out', (g + q) + p', out, all + p');
  }

  lemma Regroup<T>(a: seq<T>, b: seq<T>, c: seq<T>)
    ensures (a + b) + c == a + (b + c)
  {
  }
}
