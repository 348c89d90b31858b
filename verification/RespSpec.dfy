/**
 Replies and commands of the Redis protocol: their encoding, and what the two
 readers make of a stream of bytes.
 */
module RespSpec {
  import opened Options
  import opened Decimal

  const LINE: Byte := 0x2b       // +
  const ERR: Byte := 0x2d        // -
  const INT: Byte := 0x3a        // :
  const BULK: Byte := 0x24       // $
  const MULTI: Byte := 0x2a      // *

  const NL: seq<Byte> := [CR, LF]

  // Quiet is a line whose text was not kept; Nil and NoList carry the negative
  // length that stood for them.
  datatype Reply =
    | Status(text: seq<Byte>) | Failure(text: seq<Byte>) | Quiet(error: bool, length: nat)
    | Number(n: int) | Bulk(data: seq<Byte>) | Nil(len: int)
    | List(items: seq<Reply>) | NoList(len: int)

  // ---------- encoding ----------

  function BulkBytes(data: seq<Byte>): seq<Byte> { [BULK] + Print(|data|) + NL + data + NL }

  function Encode(r: Reply): seq<Byte>
    decreases r, 0
  {
    match r
    case Status(text) => [LINE] + text + NL
    case Failure(text) => [ERR] + text + NL
    case Quiet(_, _) => []
    case Number(n) => [INT] + Print(n) + NL
    case Bulk(data) => BulkBytes(data)
    case Nil(len) => [BULK] + Print(len) + NL
    case List(items) => [MULTI] + Print(|items|) + NL + EncodeAll(items)
    case NoList(len) => [MULTI] + Print(len) + NL
  }

  function EncodeAll(rs: seq<Reply>): seq<Byte>
    decreases rs, 1
  {
    if rs == [] then [] else Encode(rs[0]) + EncodeAll(rs[1..])
  }

  const INT_MAX := 2147483647

  // What a line buffer of size bytes can hold with its line end.
  ghost predicate FitsLine(text: seq<Byte>, size: nat) {
    |text| + 2 < size && LF !in text
  }

  // Lengths fit an int with two bytes to spare, numbers a long and lines the
  // buffer; absent bulks and lists have a negative length.
  ghost predicate Fits(r: Reply, size: nat)
    decreases r, 0
  {
    match r
    case Status(text) => FitsLine(text, size)
    case Failure(text) => FitsLine(text, size)
    case Quiet(_, _) => false
    case Number(n) => LONG_MIN <= n <= LONG_MAX
    case Bulk(data) => |data| + 2 <= INT_MAX
    case Nil(len) => LONG_MIN <= len < 0
    case List(items) => |items| <= INT_MAX && FitAll(items, size)
    case NoList(len) => LONG_MIN <= len < 0
  }

  ghost predicate FitAll(rs: seq<Reply>, size: nat)
    decreases rs, 1
  {
    rs == [] || (Fits(rs[0], size) && FitAll(rs[1..], size))
  }

  // ---------- reading from a stream ----------

  // How much php_stream_gets takes into a buffer of size bytes: up to and
  // including the first line feed, and never more than size - 1.
  function LineLength(s: seq<Byte>, size: nat): (n: nat)
    ensures n <= |s| && n < size + 1
    ensures size >= 2 && s != [] ==> n >= 1
    ensures n > 0 ==> n < size
  {
    if s == [] || size < 2 then 0 else if s[0] == LF then 1 else 1 + LineLength(s[1..], size - 1)
  }

  lemma {:induction false} LineOf(text: seq<Byte>, rest: seq<Byte>, size: nat)
    requires LF !in text && |text| + 2 < size
    ensures LineLength(text + NL + rest, size) == |text| + 2
  {
    var s := text + NL + rest;
    if text == [] {
      assert s[0] == CR && s[1..][0] == LF;
    } else {
      assert s[0] == text[0] && s[1..] == text[1..] + NL + rest;
      assert LF !in text[1..];
      LineOf(text[1..], rest, size - 1);
    }
  }

  // The conversion of a long to an int.
  function ToInt(n: int): (r: int)
    ensures -INT_MAX - 1 <= r <= INT_MAX
    ensures (n - r) % 0x1_0000_0000 == 0
  {
    var m := n % 0x1_0000_0000;
    if m <= INT_MAX then m else m - 0x1_0000_0000
  }

  lemma ToIntFits(n: int)
    requires -INT_MAX - 1 <= n <= INT_MAX
    ensures ToInt(n) == n
  {}

  // A reply type byte and, where one follows, the number behind it.
  datatype Head = Head(kind: Byte, info: int, rest: seq<Byte>)

  predicate Numbered(kind: Byte) { kind == INT || kind == BULK || kind == MULTI }

  // redis_read_reply_type; None is a failure at the end of the stream.
  function ReadHead(s: seq<Byte>): (r: Option<Head>)
    ensures r.Some? ==> |r.value.rest| < |s|
    ensures r.Some? && Numbered(r.value.kind) ==> LONG_MIN <= r.value.info <= LONG_MAX
  {
    if s == [] then None else
    if !Numbered(s[0]) then Some(Head(s[0], 0, s[1..])) else
    if |s| == 1 then None else
    var n := LineLength(s[1..], 255);
    Some(Head(s[0], Atol(s[1..1 + n]), s[1 + n..]))
  }

  // redis_sock_gets: a line without its line end. None is a failure.
  function ReadLine(s: seq<Byte>, size: nat): (r: Option<(seq<Byte>, seq<Byte>)>)
    ensures r.Some? ==> |r.value.1| <= |s|
  {
    var n := LineLength(s, size);
    if n < 2 then None else Some((s[..n - 2], s[n..]))
  }

  // redis_sock_read_bulk_reply. None is a failure, which leaves nothing to read
  // unless no bulk was asked for.
  function ReadBulk(s: seq<Byte>, bytes: int): (r: Option<(seq<Byte>, seq<Byte>)>)
    ensures r.Some? ==> |r.value.1| <= |s|
  {
    if bytes < 0 || |s| < bytes + 2 then None else Some((s[..bytes], s[bytes + 2..]))
  }

  lemma HeadOf(kind: Byte, n: int, rest: seq<Byte>)
    requires Numbered(kind) && LONG_MIN <= n <= LONG_MAX
    ensures ReadHead([kind] + Print(n) + NL + rest) == Some(Head(kind, n, rest))
  {
    hide Atol, Print;
    var s := [kind] + Print(n) + NL + rest;
    PrintLine(n);
    assert s[1..] == Print(n) + NL + rest;
    LineOf(Print(n), rest, 255);
    assert s[1..1 + (|Print(n)| + 2)] == Print(n) + NL;
    assert s[1 + (|Print(n)| + 2)..] == rest;
    EndsNumber();
    assert [] + [] + Print(n) + NL == Print(n) + NL;
    AtolPrint(n, [], false, NL);
  }

  lemma EndsNumber()
    ensures DigitValue(CR) == -1
  {}

  lemma BulkOf(data: seq<Byte>, rest: seq<Byte>)
    ensures ReadBulk(data + NL + rest, |data|) == Some((data, rest))
  {
    var s := data + NL + rest;
    assert s[..|data|] == data && s[|data| + 2..] == rest;
  }

  lemma TextOf(text: seq<Byte>, rest: seq<Byte>, size: nat)
    requires FitsLine(text, size)
    ensures ReadLine(text + NL + rest, size) == Some((text, rest))
  {
    var s := text + NL + rest;
    LineOf(text, rest, size);
    assert s[..|text|] == text && s[|text| + 2..] == rest;
  }

  // ---------- the cluster reader ----------

  const CLUSTER_BUFFER := 1024

  datatype Outcome = Done(items: seq<Reply>, rest: seq<Byte>) | Broken

  datatype One = Got(item: Reply, rest: seq<Byte>) | Lost

  // cluster_multibulk_resp_recursive: n replies, or an error.
  function ClusterRead(s: seq<Byte>, n: nat, strings: bool): (r: Outcome)
    ensures r.Done? ==> |r.rest| <= |s|
    decreases |s|, 1, n
  {
    if n == 0 then Done([], s) else
    match ClusterReadOne(s, strings)
    case Lost => Broken
    case Got(item, rest) =>
      match ClusterRead(rest, n - 1, strings)
      case Broken => Broken
      case Done(items, rest') => Done([item] + items, rest')
  }

  function ClusterReadOne(s: seq<Byte>, strings: bool): (r: One)
    ensures r.Got? ==> |r.rest| < |s|
    decreases |s|, 0
  {
    match ReadHead(s)
    case None => Lost
    case Some(h) =>
      if h.kind == LINE || h.kind == ERR then
        match ReadLine(h.rest, CLUSTER_BUFFER)
        case None => Lost
        case Some((text, rest)) =>
          Got(if !strings then Quiet(h.kind == ERR, |text|) else if h.kind == ERR then Failure(text)
            else Status(text), rest)
      else if h.kind == INT then Got(Number(h.info), h.rest)
      else if h.kind == BULK then
        if h.info < 0 then Got(Nil(h.info), h.rest) else
        match ReadBulk(h.rest, ToInt(h.info))
        case None => Lost
        case Some((data, rest)) => Got(Bulk(data), rest)
      else if h.kind == MULTI then
        if h.info < 0 then Got(NoList(h.info), h.rest) else
        match ClusterRead(h.rest, h.info, strings)
        case Broken => Lost
        case Done(items, rest) => Got(List(items), rest)
      else Lost
  }

  // What the cluster reader keeps of a reply: everything, or of a line its length
  // and whether it was an error.
  function Kept(r: Reply, strings: bool): Reply
    decreases r, 0
  {
    match r
    case Status(text) => if strings then r else Quiet(false, |text|)
    case Failure(text) => if strings then r else Quiet(true, |text|)
    case List(items) => List(KeptAll(items, strings))
    case _ => r
  }

  function KeptAll(rs: seq<Reply>, strings: bool): seq<Reply>
    decreases rs, 1
  {
    if rs == [] then [] else [Kept(rs[0], strings)] + KeptAll(rs[1..], strings)
  }

  lemma {:induction false} KeptWhole(r: Reply)
    ensures Kept(r, true) == r
    decreases r, 0
  {
    if r.List? { AllKept(r.items); }
  }

  lemma {:induction false} AllKept(rs: seq<Reply>)
    ensures KeptAll(rs, true) == rs
    decreases rs, 1
  {
    if rs != [] {
      KeptWhole(rs[0]);
      AllKept(rs[1..]);
    }
  }

  // Reading the encoding of any reply gives back what is kept of it.
  lemma {:induction false} ClusterInverts(r: Reply, rest: seq<Byte>, strings: bool)
    requires Fits(r, CLUSTER_BUFFER)
    ensures ClusterReadOne(Encode(r) + rest, strings) == Got(Kept(r, strings), rest)
    decreases r, 0
  {
    hide Print, ReadLine, ReadBulk, ReadHead, ToInt, EncodeAll, FitAll, FitsLine, ClusterRead, KeptAll, Numbered;
    Kinds();
    match r
    case Status(text) => ClusterInvertsLine(r, LINE, text, rest, strings);
    case Failure(text) => ClusterInvertsLine(r, ERR, text, rest, strings);
    case Number(n) =>
      HeadOf(INT, n, rest);
      assert Encode(r) + rest == [INT] + Print(n) + NL + rest;
    case Bulk(data) =>
      HeadOf(BULK, |data|, data + NL + rest);
      assert Encode(r) + rest == [BULK] + Print(|data|) + NL + (data + NL + rest);
      ToIntFits(|data|);
      BulkOf(data, rest);
    case Nil(len) =>
      HeadOf(BULK, len, rest);
      assert Encode(r) + rest == [BULK] + Print(len) + NL + rest;
    case List(items) =>
      HeadOf(MULTI, |items|, EncodeAll(items) + rest);
      assert Encode(r) + rest == [MULTI] + Print(|items|) + NL + (EncodeAll(items) + rest);
      ClusterInvertsAll(items, rest, strings);
    case NoList(len) =>
      HeadOf(MULTI, len, rest);
      assert Encode(r) + rest == [MULTI] + Print(len) + NL + rest;
  }

  lemma ClusterInvertsLine(r: Reply, kind: Byte, text: seq<Byte>, rest: seq<Byte>, strings: bool)
    requires FitsLine(text, CLUSTER_BUFFER) && ((kind == LINE && r == Status(text))
      || (kind == ERR && r == Failure(text)))
    ensures ClusterReadOne(Encode(r) + rest, strings) == Got(Kept(r, strings), rest)
  {
    hide ReadLine, ReadHead, FitsLine, ClusterRead, Numbered;
    Kinds();
    LineHead(kind, text + NL + rest);
    assert Encode(r) + rest == [kind] + (text + NL + rest);
    TextOf(text, rest, CLUSTER_BUFFER);
  }

  lemma Kinds()
    ensures !Numbered(LINE) && !Numbered(ERR) && Numbered(INT) && Numbered(BULK) && Numbered(MULTI)
  {}

  lemma LineHead(kind: Byte, rest: seq<Byte>)
    requires !Numbered(kind)
    ensures ReadHead([kind] + rest) == Some(Head(kind, 0, rest))
  {}

  // Whatever nesting the replies have, the cluster reader returns what is kept of
  // them, which is all of them with strings on, and stops right behind them.
  lemma {:induction false} ClusterInvertsAll(rs: seq<Reply>, rest: seq<Byte>, strings: bool)
    requires FitAll(rs, CLUSTER_BUFFER)
    ensures ClusterRead(EncodeAll(rs) + rest, |rs|, strings) == Done(KeptAll(rs, strings), rest)
    ensures strings ==> KeptAll(rs, strings) == rs
    decreases rs, 1
  {
    hide ClusterReadOne, Encode, Kept;
    if rs == [] {
      assert EncodeAll(rs) + rest == rest;
    } else {
      var more := EncodeAll(rs[1..]) + rest;
      assert EncodeAll(rs) + rest == Encode(rs[0]) + more;
      ClusterInverts(rs[0], more, strings);
      ClusterInvertsAll(rs[1..], rest, strings);
      KeptWhole(rs[0]);
    }
  }

  // A list that announces more replies than there are is an error.
  lemma {:induction false} ClusterShort(rs: seq<Reply>, n: nat, strings: bool)
    requires FitAll(rs, CLUSTER_BUFFER) && n > |rs|
    ensures ClusterRead(EncodeAll(rs), n, strings) == Broken
    decreases rs
  {
    hide ClusterReadOne, Encode, Kept, ReadHead;
    if rs == [] {
      NothingLeft(strings);
    } else {
      ClusterInverts(rs[0], EncodeAll(rs[1..]), strings);
      ClusterShort(rs[1..], n - 1, strings);
    }
  }

  lemma NothingLeft(strings: bool)
    ensures ClusterReadOne([], strings) == Lost
  {}
}
