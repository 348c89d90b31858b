/**
 The commands that redis_spprintf writes, and the reader of library.c as a
 function on the bytes of the stream.
 */
module RespCommands {
  import opened Options
  import opened Decimal
  import opened RespSpec
  import HashTag

  // ---------- redis_read_multibulk_recursive ----------

  datatype Zval = True | False | Null | Text(data: seq<Byte>) | Long(n: int) | Array(items: seq<Zval>)

  const VARIANT_BUFFER := 4096

  // ok is false when the stream ended before all elements were read.
  datatype Elements = Elements(items: seq<Zval>, rest: seq<Byte>, ok: bool)

  function Multi(s: seq<Byte>, n: int, strings: bool): (r: Elements)
    ensures |r.rest| <= |s|
    decreases |s|, 1, n
  {
    if n <= 0 then Elements([], s, true) else
    match ReadHead(s)
    case None => Elements([], [], false)
    case Some(h) =>
      var (item, rest) := Element(h, strings);
      var more := Multi(rest, n - 1, strings);
      Elements(item + more.items, more.rest, more.ok)
  }

  // What one element adds to the array, and what is left of the stream. A type
  // byte that is none of the five adds nothing.
  function Element(h: Head, strings: bool): (r: (seq<Zval>, seq<Byte>))
    ensures |r.1| <= |h.rest|
    decreases |h.rest|, 2
  {
    if h.kind == LINE || h.kind == ERR then
      match ReadLine(h.rest, VARIANT_BUFFER)
      case None => ([Null], h.rest[LineLength(h.rest, VARIANT_BUFFER)..])
      case Some((text, rest)) => ([if h.kind == ERR then False else if strings then Text(text) else True], rest)
    else if h.kind == INT then ([Long(h.info)], h.rest)
    else if h.kind == BULK then
      match ReadBulk(h.rest, ToInt(h.info))
      case None => ([False], if ToInt(h.info) < 0 then h.rest else [])
      case Some((data, rest)) => ([Text(data)], rest)
    else if h.kind == MULTI then
      var inner := Multi(h.rest, ToInt(h.info), strings);
      ([Array(inner.items)], inner.rest)
    else ([], h.rest)
  }

  // What the array shows of a reply: errors and absent bulks are false, an absent
  // list is empty, and without strings a status is true.
  function View(r: Reply, strings: bool): Zval
    decreases r, 0
  {
    match r
    case Status(text) => if strings then Text(text) else True
    case Failure(_) => False
    case Quiet(_, _) => Null
    case Number(n) => Long(n)
    case Bulk(data) => Text(data)
    case Nil(_) => False
    case List(items) => Array(ViewAll(items, strings))
    case NoList(_) => Array([])
  }

  function ViewAll(rs: seq<Reply>, strings: bool): (r: seq<Zval>)
    decreases rs, 1
  {
    if rs == [] then [] else [View(rs[0], strings)] + ViewAll(rs[1..], strings)
  }

  // As the protocol has it, an absent bulk or list has length -1.
  ghost predicate Standard(r: Reply)
    decreases r, 0
  {
    (r.Nil? ==> r.len == -1) && (r.NoList? ==> r.len == -1) && (r.List? ==> AllStandard(r.items))
  }

  ghost predicate AllStandard(rs: seq<Reply>)
    decreases rs, 1
  {
    rs == [] || (Standard(rs[0]) && AllStandard(rs[1..]))
  }

  lemma {:induction false} ElementInverts(r: Reply, rest: seq<Byte>, strings: bool)
    requires Fits(r, VARIANT_BUFFER) && Standard(r)
    ensures var h := ReadHead(Encode(r) + rest); h.Some? && Element(h.value, strings) == ([View(r, strings)], rest)
    decreases r, 0
  {
    hide Print, ReadLine, ReadBulk, ReadHead, ToInt, EncodeAll, FitAll, FitsLine, Multi, ViewAll, AllStandard, Numbered;
    Kinds();
    match r
    case Status(text) => LineInverts(r, LINE, text, rest, strings);
    case Failure(text) => LineInverts(r, ERR, text, rest, strings);
    case Number(n) =>
      HeadOf(INT, n, rest);
      assert Encode(r) + rest == [INT] + Print(n) + NL + rest;
    case Bulk(data) => BulkInverts(data, rest, strings);
    case Nil(_) => NilInverts(rest, strings);
    case List(items) =>
      HeadOf(MULTI, |items|, EncodeAll(items) + rest);
      assert Encode(r) + rest == [MULTI] + Print(|items|) + NL + (EncodeAll(items) + rest);
      ToIntFits(|items|);
      MultiInverts(items, rest, strings);
    case NoList(len) =>
      HeadOf(MULTI, len, rest);
      assert Encode(r) + rest == [MULTI] + Print(len) + NL + rest;
      ToIntFits(-1);
      NoElements(rest, -1, strings);
  }

  lemma LineInverts(r: Reply, kind: Byte, text: seq<Byte>, rest: seq<Byte>, strings: bool)
    requires FitsLine(text, VARIANT_BUFFER)
    requires (kind == LINE && r == Status(text)) || (kind == ERR && r == Failure(text))
    ensures var h := ReadHead(Encode(r) + rest); h.Some? && Element(h.value, strings) == ([View(r, strings)], rest)
  {
    hide ReadLine, ReadHead, FitsLine, Multi, Numbered;
    Kinds();
    LineHead(kind, text + NL + rest);
    assert Encode(r) + rest == [kind] + (text + NL + rest);
    TextOf(text, rest, VARIANT_BUFFER);
  }

  lemma BulkInverts(data: seq<Byte>, rest: seq<Byte>, strings: bool)
    requires |data| + 2 <= INT_MAX
    ensures var h := ReadHead(Encode(Bulk(data)) + rest); h.Some? && Element(h.value, strings) == ([Text(data)], rest)
  {
    hide Print, ReadLine, ReadBulk, ReadHead, ToInt, Multi, Numbered;
    Kinds();
    HeadOf(BULK, |data|, data + NL + rest);
    assert Encode(Bulk(data)) + rest == [BULK] + Print(|data|) + NL + (data + NL + rest);
    ToIntFits(|data|);
    BulkOf(data, rest);
  }

  lemma NilInverts(rest: seq<Byte>, strings: bool)
    ensures var h := ReadHead(Encode(Nil(-1)) + rest); h.Some? && Element(h.value, strings) == ([False], rest)
  {
    hide Print, ReadLine, ReadBulk, ReadHead, ToInt, Multi, Numbered;
    Kinds();
    HeadOf(BULK, -1, rest);
    assert Encode(Nil(-1)) + rest == [BULK] + Print(-1) + NL + rest;
    ToIntFits(-1);
    NoBulk(rest);
  }

  lemma NoElements(s: seq<Byte>, n: int, strings: bool)
    requires n <= 0
    ensures Multi(s, n, strings) == Elements([], s, true)
  {}

  lemma NoBulk(rest: seq<Byte>)
    ensures ReadBulk(rest, -1) == None
  {}

  // Reading the encoding of any nested replies gives what they show, and stops
  // right behind them.
  lemma {:induction false} MultiInverts(rs: seq<Reply>, rest: seq<Byte>, strings: bool)
    requires FitAll(rs, VARIANT_BUFFER) && AllStandard(rs)
    ensures Multi(EncodeAll(rs) + rest, |rs|, strings) == Elements(ViewAll(rs, strings), rest, true)
    decreases rs, 1
  {
    hide Element, Encode, View, ReadHead;
    if rs == [] {
      assert EncodeAll(rs) + rest == rest;
    } else {
      var more := EncodeAll(rs[1..]) + rest;
      assert EncodeAll(rs) + rest == Encode(rs[0]) + more;
      ElementInverts(rs[0], more, strings);
      MultiInverts(rs[1..], rest, strings);
    }
  }

  // ---------- redis_spprintf ----------

  // An argument as text, already packed or formatted where the specifier asks
  // for it, or a number.
  datatype Arg = Bytes(s: seq<Byte>) | Int(n: int)

  predicate Known(c: char) { c in ['s', 'S', 'k', 'v', 'f', 'F'] || c in ['i', 'd', 'l', 'L'] }

  // Every known specifier has an argument of its type.
  ghost predicate Supplied(fmt: string, args: seq<Arg>) {
    if fmt == [] then args == []
    else if !Known(fmt[0]) then Supplied(fmt[1..], args)
    else args != [] && (args[0].Int? <==> fmt[0] in ['i', 'd', 'l', 'L']) && Supplied(fmt[1..], args[1..])
  }

  function Rendered(c: char, arg: Arg, prefix: seq<Byte>): seq<Byte> {
    match arg
    case Bytes(s) => if c == 'k' then prefix + s else s
    case Int(n) => Print(n)
  }

  // The arguments of the command.
  function Strings(fmt: string, args: seq<Arg>, prefix: seq<Byte>): seq<seq<Byte>> {
    if fmt == [] || args == [] then []
    else if !Known(fmt[0]) then Strings(fmt[1..], args, prefix)
    else [Rendered(fmt[0], args[0], prefix)] + Strings(fmt[1..], args[1..], prefix)
  }

  function BulksOf(ss: seq<seq<Byte>>): (r: seq<Reply>)
    ensures |r| == |ss|
    ensures forall i :: 0 <= i < |ss| ==> r[i] == Bulk(ss[i])
  {
    if ss == [] then [] else [Bulk(ss[0])] + BulksOf(ss[1..])
  }

  // The header counts the characters of the format, whether or not they are
  // known specifiers.
  function Command(kw: seq<Byte>, fmt: string, args: seq<Arg>, prefix: seq<Byte>): seq<Byte> {
    [MULTI] + Print(|fmt| + 1) + NL + BulkBytes(kw) + EncodeAll(BulksOf(Strings(fmt, args, prefix)))
  }

  // The slot of the last key.
  function KeySlot(fmt: string, args: seq<Arg>, prefix: seq<Byte>, slot: Option<Byte16>): Option<Byte16> {
    if fmt == [] || args == [] then slot
    else if !Known(fmt[0]) then KeySlot(fmt[1..], args, prefix, slot)
    else KeySlot(fmt[1..], args[1..], prefix,
                 if fmt[0] == 'k' then Some(HashTag.SlotOf(Rendered(fmt[0], args[0], prefix))) else slot)
  }

  type Byte16 = bv16

  // Lengths fit an int.
  ghost predicate Modest(kw: seq<Byte>, fmt: string, args: seq<Arg>, prefix: seq<Byte>) {
    && |kw| + 2 <= INT_MAX && |fmt| + 1 <= INT_MAX
    && forall i :: 0 <= i < |Strings(fmt, args, prefix)| ==> |Strings(fmt, args, prefix)[i]| + 2 <= INT_MAX
  }

  lemma {:induction false} CountKnown(fmt: string, args: seq<Arg>, prefix: seq<Byte>)
    requires Supplied(fmt, args)
    ensures |Strings(fmt, args, prefix)| <= |fmt|
    ensures |Strings(fmt, args, prefix)| == |fmt| <==> forall i :: 0 <= i < |fmt| ==> Known(fmt[i])
  {
    hide Rendered, Known;
    if fmt != [] {
      assert fmt == [fmt[0]] + fmt[1..];
      CountKnown(fmt[1..], if Known(fmt[0]) then args[1..] else args, prefix);
    }
  }

  lemma {:induction false} BulksFit(ss: seq<seq<Byte>>)
    requires forall i :: 0 <= i < |ss| ==> |ss[i]| + 2 <= INT_MAX
    ensures FitAll(BulksOf(ss), VARIANT_BUFFER) && AllStandard(BulksOf(ss))
  {
    if ss != [] {
      BulksFit(ss[1..]);
      assert BulksOf(ss)[1..] == BulksOf(ss[1..]);
    }
  }

  // Asking for more elements than there are reads them all and then fails.
  lemma {:induction false} MultiShort(rs: seq<Reply>, n: int, strings: bool)
    requires FitAll(rs, VARIANT_BUFFER) && AllStandard(rs) && n > |rs|
    ensures Multi(EncodeAll(rs), n, strings) == Elements(ViewAll(rs, strings), [], false)
    decreases rs
  {
    hide Element, Encode, View;
    if rs != [] {
      hide ReadHead;
      ElementInverts(rs[0], EncodeAll(rs[1..]), strings);
      MultiShort(rs[1..], n - 1, strings);
    }
  }

  // A command is read back as the keyword and exactly its arguments. The header
  // agrees with the bulks, and the reader with the stream, exactly when the
  // format has known specifiers only; any other character makes the reader wait
  // for an element that never comes.
  lemma ReadBack(kw: seq<Byte>, fmt: string, args: seq<Arg>, prefix: seq<Byte>)
    requires Supplied(fmt, args) && Modest(kw, fmt, args, prefix)
    ensures var bulks := BulksOf([kw] + Strings(fmt, args, prefix));
      var h := ReadHead(Command(kw, fmt, args, prefix));
      && h == Some(Head(MULTI, |fmt| + 1, EncodeAll(bulks)))
      && Multi(h.value.rest, h.value.info, true)
         == Elements(ViewAll(bulks, true), [], forall i :: 0 <= i < |fmt| ==> Known(fmt[i]))
      && (|bulks| == |fmt| + 1 <==> forall i :: 0 <= i < |fmt| ==> Known(fmt[i]))
  {
    hide Print, Known, Rendered, ReadHead, Multi, ViewAll, Strings, Supplied;
    var ss := [kw] + Strings(fmt, args, prefix);
    var bulks := BulksOf(ss);
    assert ss[0] == kw && ss[1..] == Strings(fmt, args, prefix);
    assert EncodeAll(bulks) == BulkBytes(kw) + EncodeAll(BulksOf(ss[1..])) by { FirstBulk(kw, ss[1..]); }
    HeadOf(MULTI, |fmt| + 1, EncodeAll(bulks));
    assert Command(kw, fmt, args, prefix) == [MULTI] + Print(|fmt| + 1) + NL + EncodeAll(bulks);
    CountKnown(fmt, args, prefix);
    BulksFit(ss);
    if |bulks| == |fmt| + 1 {
      MultiInverts(bulks, [], true);
      assert EncodeAll(bulks) + [] == EncodeAll(bulks);
    } else {
      MultiShort(bulks, |fmt| + 1, true);
    }
  }

  // One unknown character and no argument: the header announces two bulks, the
  // keyword is the only one, and the reader fails at the end of the stream.
  lemma UnknownSpecifier(kw: seq<Byte>)
    requires |kw| + 2 <= INT_MAX
    ensures var h := ReadHead(Command(kw, "x", [], []));
      && h.Some? && h.value.kind == MULTI && h.value.info == 2
      && Multi(h.value.rest, 2, true) == Elements([Text(kw)], [], false)
  {
    hide Print, ReadHead, Multi, BulkBytes;
    assert Strings("x", [], []) == [];
    assert Supplied("x", []) by { assert "x"[1..] == []; }
    ReadBack(kw, "x", [], []);
    assert "x"[0] == 'x' && !Known('x');
    assert [kw] + Strings("x", [], []) == [kw];
    OneView(kw);
  }

  lemma OneView(kw: seq<Byte>)
    ensures ViewAll(BulksOf([kw]), true) == [Text(kw)]
  {
    assert [kw][1..] == [];
    assert BulksOf([kw]) == [Bulk(kw)];
    assert [Bulk(kw)][1..] == [];
  }

  lemma FirstBulk(kw: seq<Byte>, ss: seq<seq<Byte>>)
    ensures EncodeAll(BulksOf([kw] + ss)) == BulkBytes(kw) + EncodeAll(BulksOf(ss))
  {
    var t := [kw] + ss;
    assert t[0] == kw && t[1..] == ss;
    assert BulksOf(t)[1..] == BulksOf(ss);
    assert Encode(Bulk(kw)) == BulkBytes(kw);
  }
}
