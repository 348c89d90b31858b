/** RedisArray::mget: keys are scattered over nodes and the values gathered back. */
module ArrayMget {
  import opened Options
  import opened Decimal

  // Keys are strings or numbers; Other is any value that is neither.
  datatype Key = Str(s: seq<Byte>) | Num(n: int) | Other

  // What a node answers: a list of values, or something else.
  datatype Reply<V> = Values(vs: seq<V>) | NotArray

  // The text by which the node of a key is looked up.
  function LookupText(k: Key): seq<Byte> {
    match k
    case Str(s) => s
    case Num(n) => Print(n)
    case Other => []
  }

  // How many of the first k keys are on node n.
  function Count(pos: seq<nat>, n: nat, k: nat): nat
    requires k <= |pos|
  {
    if k == 0 then 0 else Count(pos, n, k - 1) + (if pos[k - 1] == n then 1 else 0)
  }

  // Those keys, in order.
  function Asked(keys: seq<Key>, pos: seq<nat>, n: nat, k: nat): (r: seq<Key>)
    requires k <= |pos| == |keys|
    ensures |r| == Count(pos, n, k)
  {
    if k == 0 then [] else Asked(keys, pos, n, k - 1) + (if pos[k - 1] == n then [keys[k - 1]] else [])
  }

  // The value for key i in the answer of its node, if there is one.
  function Answered<V>(keys: seq<Key>, pos: seq<nat>, call: (nat, seq<Key>) -> Reply<V>, i: nat): Option<V>
    requires i < |pos| == |keys|
  {
    match call(pos[i], Asked(keys, pos, pos[i], |keys|))
    case NotArray => None
    case Values(vs) => if Count(pos, pos[i], i) < |vs| then Some(vs[Count(pos, pos[i], i)]) else None
  }

  // The values there are for the first k keys, in the order of the keys.
  function Gathered<V>(keys: seq<Key>, pos: seq<nat>, call: (nat, seq<Key>) -> Reply<V>, k: nat): seq<V>
    requires k <= |pos| == |keys|
  {
    if k == 0 then [] else
    Gathered(keys, pos, call, k - 1) + (match Answered(keys, pos, call, k - 1) case None => [] case Some(v) => [v])
  }

  function Places(keys: seq<Key>, find: seq<Byte> -> nat): (r: seq<nat>)
    ensures |r| == |keys|
  {
    seq<nat>(|keys|, i requires 0 <= i < |keys| => find(LookupText(keys[i])))
  }

  // Every node that has keys answers with a list.
  ghost predicate AllAnswer<V>(keys: seq<Key>, pos: seq<nat>, call: (nat, seq<Key>) -> Reply<V>)
    requires |pos| == |keys|
  {
    forall i :: 0 <= i < |keys| ==> call(pos[i], Asked(keys, pos, pos[i], |keys|)).Values?
  }

  // Key i is the one asked for at its rank among the keys of its node.
  lemma {:induction false} AskedAtRank(keys: seq<Key>, pos: seq<nat>, i: nat, k: nat)
    requires i < k <= |pos| == |keys|
    ensures Count(pos, pos[i], i) < Count(pos, pos[i], k)
    ensures Asked(keys, pos, pos[i], k)[Count(pos, pos[i], i)] == keys[i]
  {
    if i < k - 1 { AskedAtRank(keys, pos, i, k - 1); }
  }

  lemma {:induction false} GatheredInOrder<V>(keys: seq<Key>, pos: seq<nat>, call: (nat, seq<Key>) -> Reply<V>,
                                              store: (nat, Key) -> V, k: nat)
    requires k <= |pos| == |keys|
    requires forall n, ks :: call(n, ks) == Values(seq(|ks|, j requires 0 <= j < |ks| => store(n, ks[j])))
    ensures Gathered(keys, pos, call, k) == seq(k, i requires 0 <= i < k => store(pos[i], keys[i]))
  {
    if k > 0 {
      GatheredInOrder(keys, pos, call, store, k - 1);
      AskedAtRank(keys, pos, k - 1, |keys|);
    }
  }

  // Whatever the assignment of keys to nodes: if every node answers with the
  // value it holds for each key asked for, element i of the result is what the
  // node of key i holds for key i. The node of a number is that of its decimal
  // text.
  lemma MgetInOrder<V>(keys: seq<Key>, find: seq<Byte> -> nat, call: (nat, seq<Key>) -> Reply<V>,
                       store: (nat, Key) -> V)
    requires forall n, ks :: call(n, ks) == Values(seq(|ks|, j requires 0 <= j < |ks| => store(n, ks[j])))
    ensures var r := Gathered(keys, Places(keys, find), call, |keys|);
      AllAnswer(keys, Places(keys, find), call) && |r| == |keys|
      && (forall i :: 0 <= i < |keys| && keys[i].Str? ==> r[i] == store(find(keys[i].s), keys[i]))
      && forall i :: 0 <= i < |keys| && keys[i].Num? ==> r[i] == store(find(Print(keys[i].n)), keys[i])
  {
    GatheredInOrder(keys, Places(keys, find), call, store, |keys|);
    forall i | 0 <= i < |keys| ensures Places(keys, find)[i] == find(LookupText(keys[i])) {}
  }

  // Of how many of the first k keys the node has answered with a value.
  function Answers<V>(keys: seq<Key>, pos: seq<nat>, call: (nat, seq<Key>) -> Reply<V>, k: nat): nat
    requires k <= |pos| == |keys|
  {
    if k == 0 then 0 else Answers(keys, pos, call, k - 1) + if Answered(keys, pos, call, k - 1).Some? then 1 else 0
  }

  // Whatever the nodes answer: a key has a value if its rank among the keys of its
  // node is within the answer. It is the value at that rank, the values come in the
  // order of their keys, and a key without one leaves no gap.
  lemma {:induction false} GatheredAt<V>(keys: seq<Key>, pos: seq<nat>, call: (nat, seq<Key>) -> Reply<V>, i: nat,
                                         k: nat)
    requires i < k <= |pos| == |keys|
    ensures var r := Gathered(keys, pos, call, k); var reply := call(pos[i], Asked(keys, pos, pos[i], |keys|));
      && |r| == Answers(keys, pos, call, k)
      && (reply.Values? && Count(pos, pos[i], i) < |reply.vs| ==>
          Answers(keys, pos, call, i) < |r| && r[Answers(keys, pos, call, i)] == reply.vs[Count(pos, pos[i], i)])
  {
    hide Asked, Count;
    if i < k - 1 {
      GatheredAt(keys, pos, call, i, k - 1);
    } else {
      GatheredLength(keys, pos, call, k - 1);
    }
  }

  lemma {:induction false} GatheredLength<V>(keys: seq<Key>, pos: seq<nat>, call: (nat, seq<Key>) -> Reply<V>, k: nat)
    requires k <= |pos| == |keys|
    ensures |Gathered(keys, pos, call, k)| == Answers(keys, pos, call, k)
  {
    hide Answered;
    if k > 0 { GatheredLength(keys, pos, call, k - 1); }
  }

  lemma {:induction false} CountSome(pos: seq<nat>, n: nat, k: nat)
    requires k <= |pos|
    ensures Count(pos, n, k) > 0 <==> exists i :: 0 <= i < k && pos[i] == n
  {
    if k > 0 {
      CountSome(pos, n, k - 1);
      assert pos[k - 1] == n ==> exists i :: 0 <= i < k && pos[i] == n;
    }
  }

  class RedisArray<V(0)> {
    const count: nat                              // the number of nodes
    const find: seq<Byte> -> nat                  // ra_find_node
    const call: (nat, seq<Key>) -> Reply<V>       // MGET on a node

    constructor (count: nat, find: seq<Byte> -> nat, call: (nat, seq<Key>) -> Reply<V>)
      ensures this.count == count && this.find == find && this.call == call
    {
      this.count, this.find, this.call := count, find, call;
    }

    // The values found so far: those of the keys on nodes before n, and of the
    // first k keys on node n.
    ghost predicate Found(keys: seq<Key>, pos: seq<nat>, tmp: map<nat, V>, n: nat, k: nat)
      requires |pos| == |keys|
    {
      && (forall i :: i in tmp ==>
          i < |keys| && (pos[i] < n || (pos[i] == n && i < k)) && Answered(keys, pos, call, i) == Some(tmp[i]))
      && (forall i :: 0 <= i < |keys| && (pos[i] < n || (pos[i] == n && i < k)) ==>
           Answered(keys, pos, call, i).Some? ==> i in tmp)
    }

    // The first loop: the node of each key, and how many keys each node has.
    method Assign(keys: seq<Key>) returns (ok: bool, pos: array<nat>, argcEach: array<nat>)
      requires forall k :: find(k) < count
      ensures ok <==> Other !in keys
      ensures ok ==> pos[..] == Places(keys, find) && pos.Length == |keys| && argcEach.Length == count
      ensures ok ==> forall j :: 0 <= j < |keys| ==> pos[j] < count
      ensures ok ==> forall n :: 0 <= n < count ==> argcEach[n] == Count(Places(keys, find), n, |keys|)
    {
      hide LookupText, Count;
      var argc := |keys|;
      pos, argcEach := new nat[argc], new nat[count](_ => 0);
      ghost var ps := Places(keys, find);
      CountNone(ps);
      var i := 0;
      while i < argc
        invariant i <= argc && pos.Length == argc && argcEach.Length == count && fresh(pos) && fresh(argcEach)
        invariant Other !in keys[..i]
        invariant forall j :: 0 <= j < i ==> pos[j] == ps[j] && pos[j] < count
        invariant forall n :: 0 <= n < count ==> argcEach[n] == Count(ps, n, i)
      {
        if keys[i] == Other { return false, pos, argcEach; }
        pos[i] := find(LookupText(keys[i]));
        CountMore(ps, i);
        argcEach[pos[i]] := argcEach[pos[i]] + 1;
        i := i + 1;
      }
      assert keys[..argc] == keys;
      ok := true;
    }

    static lemma CountNone(pos: seq<nat>)
      ensures forall n :: Count(pos, n, 0) == 0
    {}

    static lemma CountMore(pos: seq<nat>, i: nat)
      requires i < |pos|
      ensures forall n :: Count(pos, n, i + 1) == Count(pos, n, i) + (if pos[i] == n then 1 else 0)
    {}

    // Every node before n that has keys answered with a list.
    ghost predicate Answering(keys: seq<Key>, pos: seq<nat>, n: nat)
      requires |pos| == |keys|
    {
      forall j :: 0 <= j < |keys| && pos[j] < n ==> call(pos[j], Asked(keys, pos, pos[j], |keys|)).Values?
    }

    // The calls, node by node. None is a node that did not answer with a list.
    method CallAll(keys: seq<Key>, pos: array<nat>, argcEach: array<nat>) returns (tmp: Option<map<nat, V>>)
      requires pos.Length == |keys| && argcEach.Length == count && forall j :: 0 <= j < |keys| ==> pos[j] < count
      requires forall n :: 0 <= n < count ==> argcEach[n] == Count(pos[..], n, |keys|)
      ensures tmp.Some? <==> AllAnswer(keys, pos[..], call)
      ensures tmp.Some? ==> Found(keys, pos[..], tmp.value, count, 0)
    {
      hide Found, Asked, Count, Answering;
      ghost var ps := pos[..];
      var found: map<nat, V> := map[];
      NothingFound(keys, ps);
      var n := 0;
      while n < count
        invariant n <= count && Found(keys, ps, found, n, 0) && Answering(keys, ps, n)
      {
        CountSome(ps, n, |keys|);
        if argcEach[n] != 0 {
          var args := Scatter(keys, pos, n);
          var ret := call(n, args);
          if ret == NotArray {
            Refused(keys, ps, n);
            return None;
          }
          found := Gather(keys, pos, n, ret.vs, found);
        }
        NextNode(keys, ps, found, n);
        NextAnswering(keys, ps, n);
        n := n + 1;
      }
      AnsweringAll(keys, ps);
      tmp := Some(found);
    }

    lemma NothingFound(keys: seq<Key>, pos: seq<nat>)
      requires |pos| == |keys|
      ensures Found(keys, pos, map[], 0, 0) && Answering(keys, pos, 0)
    {}

    lemma Refused(keys: seq<Key>, pos: seq<nat>, n: nat)
      requires |pos| == |keys| && Count(pos, n, |keys|) > 0 && call(n, Asked(keys, pos, n, |keys|)) == NotArray
      ensures !AllAnswer(keys, pos, call)
    {
      CountSome(pos, n, |keys|);
    }

    lemma NextAnswering(keys: seq<Key>, pos: seq<nat>, n: nat)
      requires |pos| == |keys| && Answering(keys, pos, n)
      requires Count(pos, n, |keys|) > 0 ==> call(n, Asked(keys, pos, n, |keys|)).Values?
      ensures Answering(keys, pos, n + 1)
    {
      CountSome(pos, n, |keys|);
    }

    lemma AnsweringAll(keys: seq<Key>, pos: seq<nat>)
      requires |pos| == |keys| && Answering(keys, pos, count) && forall j :: 0 <= j < |keys| ==> pos[j] < count
      ensures AllAnswer(keys, pos, call)
    {}

    // None is false.
    method Mget(keys: seq<Key>) returns (r: Option<seq<V>>)
      requires forall k :: find(k) < count
      ensures keys == [] || Other in keys ==> r == None
      ensures keys != [] && Other !in keys ==>
        var pos := Places(keys, find);
        r == if AllAnswer(keys, pos, call) then Some(Gathered(keys, pos, call, |keys|)) else None
    {
      hide Found, Asked, Count, AllAnswer, Answered, Gathered;
      if |keys| == 0 { return None; }
      var ok, pos, argcEach := Assign(keys);
      if !ok { return None; }
      var tmp := CallAll(keys, pos, argcEach);
      if tmp == None { return None; }
      var values := Order(keys, pos, tmp.value);
      r := Some(values);
    }

    // The last loop: the values in the order of the keys.
    method Order(keys: seq<Key>, pos: array<nat>, tmp: map<nat, V>) returns (values: seq<V>)
      requires pos.Length == |keys| && Found(keys, pos[..], tmp, count, 0) && forall j :: 0 <= j < |keys| ==>
        pos[j] < count
      ensures values == Gathered(keys, pos[..], call, |keys|)
    {
      hide Answered;
      values := [];
      var i := 0;
      while i < |keys|
        invariant i <= |keys| && values == Gathered(keys, pos[..], call, i)
      {
        if i in tmp { values := values + [tmp[i]]; }
        i := i + 1;
      }
    }

    lemma NextNode(keys: seq<Key>, pos: seq<nat>, tmp: map<nat, V>, n: nat)
      requires |pos| == |keys|
      requires Found(keys, pos, tmp, n, |keys|) || (Found(keys, pos, tmp, n, 0) && Count(pos, n, |keys|) == 0)
      ensures Found(keys, pos, tmp, n + 1, 0)
    {
      CountSome(pos, n, |keys|);
    }

    // The keys of node n, in order.
    method Scatter(keys: seq<Key>, pos: array<nat>, n: nat) returns (args: seq<Key>)
      requires pos.Length == |keys|
      ensures args == Asked(keys, pos[..], n, |keys|)
    {
      args := [];
      var i := 0;
      while i < |keys|
        invariant i <= |keys| && args == Asked(keys, pos[..], n, i)
      {
        if pos[i] == n { args := args + [keys[i]]; }
        i := i + 1;
      }
    }

    // The answer of node n, put where its keys were.
    method Gather(keys: seq<Key>, pos: array<nat>, n: nat, vs: seq<V>, tmp: map<nat, V>) returns (r: map<nat, V>)
      requires pos.Length == |keys| && Found(keys, pos[..], tmp, n, 0)
      requires call(n, Asked(keys, pos[..], n, |keys|)) == Values(vs)
      ensures Found(keys, pos[..], r, n, |keys|)
    {
      r := tmp;
      var i, j := 0, 0;
      while i < |keys|
        invariant i <= |keys| && j == Count(pos[..], n, i) && Found(keys, pos[..], r, n, i)
      {
        if pos[i] == n {
          if j < |vs| { r := r[i := vs[j]]; }
          j := j + 1;
        }
        i := i + 1;
      }
    }
  }
}
