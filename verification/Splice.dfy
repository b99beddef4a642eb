/** Replacing ordered, disjoint spans of a byte sequence: in one pass, or one span at a time from the back. */
module Splice {
  datatype Edit<T> = Edit(start: nat, end: nat, text: seq<T>)

  /** The spans lie in `from..length`, in order, and do not overlap. */
  ghost predicate InOrder<T>(edits: seq<Edit<T>>, from: nat, length: nat) {
    if edits == [] then from <= length
    else from <= edits[0].start <= edits[0].end <= length && InOrder(edits[1..], edits[0].end, length)
  }

  /** Everything outside the spans is kept, each span is replaced by its text. */
  ghost function Spliced<T>(data: seq<T>, from: nat, edits: seq<Edit<T>>): seq<T>
    requires InOrder(edits, from, |data|)
    decreases |edits|
  {
    if edits == [] then data[from..]
    else data[from..edits[0].start] + edits[0].text + Spliced(data, edits[0].end, edits[1..])
  }

  /** `replaceBytes`. */
  function ReplaceBytes<T>(data: seq<T>, start: nat, end: nat, text: seq<T>): seq<T>
    requires start <= end <= |data|
  {
    data[..start] + text + data[end..]
  }

  lemma {:induction false} SplicedLater<T>(data: seq<T>, from: nat, later: nat, edits: seq<Edit<T>>)
    requires from <= later && InOrder(edits, later, |data|)
    ensures InOrder(edits, from, |data|) &&
            Spliced(data, from, edits) == data[from..later] + Spliced(data, later, edits)
  {
    if edits == [] {
      assert data[from..] == data[from..later] + data[later..];
    } else {
      var head, tail := edits[0], Spliced(data, edits[0].end, edits[1..]);
      assert data[from..head.start] == data[from..later] + data[later..head.start];
      Regroup(data[from..later], data[later..head.start], head.text, tail);
    }
  }

  lemma Regroup<T>(a: seq<T>, b: seq<T>, c: seq<T>, d: seq<T>)
    ensures (a + b) + c + d == a + (b + c + d)
  {
  }

  lemma {:induction false} SplicedCons<T>(data: seq<T>, e: Edit<T>, rest: seq<Edit<T>>)
    requires e.start <= e.end <= |data| && InOrder(rest, e.end, |data|)
    ensures InOrder([e] + rest, e.start, |data|)
    ensures Spliced(data, e.start, [e] + rest) == e.text + Spliced(data, e.end, rest)
  {
    var edits, tail := [e] + rest, Spliced(data, e.end, rest);
    assert edits[0] == e && edits[1..] == rest;
    assert Spliced(data, e.start, edits) == data[e.start..e.start] + e.text + tail;
    assert data[e.start..e.start] == [];
    assert [] + e.text == e.text;
  }

  lemma {:induction false} InOrderEarlier<T>(edits: seq<Edit<T>>, from: nat, later: nat, length: nat)
    requires from <= later && InOrder(edits, later, length)
    ensures InOrder(edits, from, length)
  {
  }

  lemma {:induction false} InOrderSplit<T>(a: seq<Edit<T>>, b: seq<Edit<T>>, from: nat, mid: nat, length: nat)
    requires InOrder(a, from, mid) && InOrder(b, mid, length)
    ensures InOrder(a + b, from, length)
  {
    if a == [] {
      assert a + b == b;
      if b != [] { assert b[1..] == (a + b)[1..]; }
    } else {
      assert (a + b)[1..] == a[1..] + b;
      InOrderSplit(a[1..], b, a[0].end, mid, length);
    }
  }

  /** Splicing a document is splicing its two halves apart, when no span crosses the cut. */
  lemma {:induction false} SplicedSplit<T>(data: seq<T>, a: seq<Edit<T>>, b: seq<Edit<T>>, from: nat, mid: nat)
    requires mid <= |data| && InOrder(a, from, mid) && InOrder(b, mid, |data|)
    ensures InOrder(a + b, from, |data|)
    ensures Spliced(data, from, a + b) == Spliced(data[..mid], from, a) + Spliced(data, mid, b)
  {
    InOrderSplit(a, b, from, mid, |data|);
    if a == [] {
      assert a + b == b;
      SplicedLater(data, from, mid, b);
      assert data[..mid][from..] == data[from..mid];
    } else {
      var head, cut := a[0], data[..mid];
      assert (a + b)[1..] == a[1..] + b && (a + b)[0] == head;
      SplicedSplit(data, a[1..], b, head.end, mid);
      assert cut[from..head.start] == data[from..head.start];
      Chained(data[from..head.start], head.text, Spliced(cut, head.end, a[1..]), Spliced(data, mid, b));
    }
  }

  lemma Chained<T>(a: seq<T>, b: seq<T>, c: seq<T>, d: seq<T>)
    ensures a + b + (c + d) == (a + b + c) + d
  {
  }

  /** The edit loop from the back computes the one-pass splice: no edit moves a span that is still to come. */
  method SpliceBackwards<T>(data: seq<T>, edits: seq<Edit<T>>) returns (updated: seq<T>)
    requires InOrder(edits, 0, |data|)
    ensures updated == Spliced(data, 0, edits)
  {
    updated := data;
    var index := |edits|;
    SuffixInOrder(edits, 0, index, |data|);
    assert edits[index..] == [];
    while index > 0
      invariant 0 <= index <= |edits|
      invariant InOrder(edits[index..], EndBefore(edits, index), |data|)
      invariant updated == Spliced(data, 0, edits[index..]) && InOrder(edits[index..], 0, |data|)
    {
      index := index - 1;
      SuffixInOrder(edits, 0, index, |data|);
      var e, rest := edits[index], edits[index + 1..];
      assert edits[index..][1..] == rest;
      SplicedLater(data, 0, e.end, rest);
      KeptBefore(data, e, Spliced(data, e.end, rest));
      updated := ReplaceBytes(updated, e.start, e.end, e.text);
      SplicedLater(data, 0, EndBefore(edits, index), edits[index..]);
    }
    assert edits[0..] == edits;
  }

  lemma KeptBefore<T>(data: seq<T>, e: Edit<T>, rest: seq<T>)
    requires e.start <= e.end <= |data|
    ensures ReplaceBytes(data[0..e.end] + rest, e.start, e.end, e.text) == data[0..e.start] + e.text + rest
  {
  }

  function EndBefore<T>(edits: seq<Edit<T>>, index: nat): nat
    requires index <= |edits|
  {
    if index == 0 then 0 else edits[index - 1].end
  }

  lemma {:induction false} SuffixInOrder<T>(edits: seq<Edit<T>>, from: nat, index: nat, length: nat)
    requires InOrder(edits, from, length) && index <= |edits|
    ensures InOrder(edits[index..], if index == 0 then from else edits[index - 1].end, length)
    decreases index
  {
    if index == 0 {
      assert edits[0..] == edits;
    } else {
      SuffixInOrder(edits[1..], edits[0].end, index - 1, length);
      assert edits[1..][index - 1..] == edits[index..];
    }
  }
}
