/** The drone radio's receive side: a FIFO of received messages, appended to by the
    message handler and searched by message class. A class is given by its instance
    test, `isInstance`. */
module Radio {
  import opened Wrappers

  datatype Radio<M> = Radio(received: seq<M>)

  /** A fresh radio has received nothing. */
  function NewRadio<M>(): (r: Radio<M>)
    ensures |r.received| == 0
  {
    Radio([])
  }

  /** handleMessage: the message joins the tail of the queue; nothing else changes. */
  function HandleMessage<M>(radio: Radio<M>, m: M): (r: Radio<M>)
    ensures |r.received| == |radio.received| + 1
    ensures r.received[..|radio.received|] == radio.received && r.received[|radio.received|] == m
  {
    Radio(radio.received + [m])
  }

  /** The position of the first message that passes the class test; |q| when none does. */
  function FirstInstance<M>(q: seq<M>, isInstance: M -> bool): (k: nat)
    ensures k <= |q|
    ensures k < |q| ==> isInstance(q[k])
    ensures forall j :: 0 <= j < k ==> !isInstance(q[j])
    decreases |q|
  {
    if q == [] then 0
    else if isInstance(q[0]) then 0
    else 1 + FirstInstance(q[1..], isInstance)
  }

  /** The first message of the queue that passes the class test, and the queue without it;
      (None, q) when no message passes. */
  function TakeFirst<M>(q: seq<M>, isInstance: M -> bool): (r: (Option<M>, seq<M>))
    ensures r.0.None? ==> r.1 == q && forall i :: 0 <= i < |q| ==> !isInstance(q[i])
    ensures r.0.Some? ==> isInstance(r.0.value) && |r.1| == |q| - 1
    ensures r.0.Some? ==> var k := FirstInstance(q, isInstance);
                          k < |q| && r.0.value == q[k] && r.1 == q[..k] + q[k + 1..]
  {
    var k := FirstInstance(q, isInstance);
    if k == |q| then (None, q) else (Some(q[k]), q[..k] + q[k + 1..])
  }

  /** getMessage as written: find the first message passing the class test, then remove
      the first message equal to it and return it; null (None) and an untouched queue when
      there is none. The removal takes out exactly the message that was found. */
  method GetMessage<M(==)>(radio: Radio<M>, isInstance: M -> bool) returns (found: Option<M>, radio': Radio<M>)
    ensures (found, radio'.received) == TakeFirst(radio.received, isInstance)
  {
    var q := radio.received;
    var i := 0;
    while i < |q| && !isInstance(q[i])
      invariant 0 <= i <= |q|
      invariant forall j :: 0 <= j < i ==> !isInstance(q[j])
    {
      i := i + 1;
    }
    if i == |q| {
      found, radio' := None, radio;
      return;
    }
    var message := q[i];
    var k := 0;
    while q[k] != message
      invariant 0 <= k <= i
      invariant forall j :: 0 <= j < k ==> q[j] != message
      decreases i - k
    {
      k := k + 1;
    }
    found, radio' := Some(message), Radio(q[..k] + q[k + 1..]);
    TakeFirstIsFirstMatch(q, isInstance, k);
  }

  /** TakeFirst picks the message at the first index that passes the test. */
  lemma TakeFirstIsFirstMatch<M>(q: seq<M>, isInstance: M -> bool, k: nat)
    requires k < |q| && isInstance(q[k])
    requires forall j :: 0 <= j < k ==> !isInstance(q[j])
    ensures TakeFirst(q, isInstance) == (Some(q[k]), q[..k] + q[k + 1..])
  {
    var f := FirstInstance(q, isInstance);
    assert !(f < k) && !(k < f);
  }

  /** On a hit the message leaves the queue and nothing else does. */
  lemma TakeFirstKeepsOthers<M>(q: seq<M>, isInstance: M -> bool)
    ensures var (found, rest) := TakeFirst(q, isInstance);
            found.Some? ==> multiset(rest) + multiset{found.value} == multiset(q)
  {
    var k := FirstInstance(q, isInstance);
    if k < |q| {
      assert q == q[..k] + [q[k]] + q[k + 1..];
    }
  }

  /** A message just handled is found only after every earlier message of its class:
      getMessage after handleMessage(m) takes from the old queue if it holds a message of
      the class, and otherwise returns m itself (if m is of the class) and leaves the old
      queue as it was. */
  lemma TakeAfterHandle<M>(q: seq<M>, m: M, isInstance: M -> bool)
    ensures var (f0, r0) := TakeFirst(q, isInstance);
            TakeFirst(HandleMessage(Radio(q), m).received, isInstance)
            == if f0.Some? then (f0, r0 + [m])
               else if isInstance(m) then (Some(m), q)
               else (None, q + [m])
  {
    var k := FirstInstance(q, isInstance);
    var q' := q + [m];
    assert forall j :: 0 <= j < |q| ==> q'[j] == q[j];
    if k < |q| {
      TakeFirstIsFirstMatch(q', isInstance, k);
      assert q'[..k] + q'[k + 1..] == (q[..k] + q[k + 1..]) + [m];
    } else if isInstance(m) {
      TakeFirstIsFirstMatch(q', isInstance, |q|);
      assert q'[..|q|] + q'[|q| + 1..] == q;
    } else {
      var f := FirstInstance(q', isInstance);
      assert f == |q'|;
    }
  }
}
