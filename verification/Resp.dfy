/** The command writer and the reply readers, over a buffer and a byte stream. */
module Resp {
  import opened Options
  import opened Decimal
  import opened RespSpec
  import opened RespCommands
  import opened CommandArguments
  import HashTag

  // ---------- writing ----------

  class SmartString {
    var c: seq<Byte>

    constructor ()
      ensures c == []
    {
      c := [];
    }

    method Append(s: seq<Byte>)
      modifies this
      ensures c == old(c) + s
    {
      c := c + s;
    }

    // redis_cmd_init_sstr
    method InitCommand(numArgs: nat, keyword: seq<Byte>)
      modifies this
      ensures c == old(c) + ([MULTI] + Print(numArgs + 1) + NL + BulkBytes(keyword))
    {
      hide Print;
      Append([MULTI]);
      Append(Print(numArgs + 1));
      Append(NL);
      Append([BULK]);
      Append(Print(|keyword|));
      Append(NL);
      Append(keyword);
      Append(NL);
    }

    // redis_cmd_append_sstr
    method AppendBulk(s: seq<Byte>)
      modifies this
      ensures c == old(c) + BulkBytes(s)
    {
      hide Print;
      Append([BULK]);
      Append(Print(|s|));
      Append(NL);
      Append(s);
      Append(NL);
    }
  }

  // redis_spprintf: the command, and the slot of the last key in it.
  method Format(keyword: seq<Byte>, fmt: string, args: seq<Arg>, prefix: seq<Byte>)
                returns (cmd: seq<Byte>, slot: Option<Byte16>)
    requires Supplied(fmt, args)
    ensures cmd == Command(keyword, fmt, args, prefix)
    ensures slot == KeySlot(fmt, args, prefix, None) && FromLastKey(fmt, args, prefix, slot)
  {
    hide FromLastKey, BulkBytes, Print, HashTag.SlotOf, Command, Strings, KeySlot, Supplied, EncodeAll, BulksOf,
         Rendered;
    var buf := new SmartString();
    buf.InitCommand(|fmt|, keyword);
    ghost var header := buf.c;
    slot := None;
    var i, a := 0, 0;
    assert fmt[0..] == fmt && args[0..] == args;
    while i < |fmt|
      invariant i <= |fmt| && a <= |args| && Supplied(fmt[i..], args[a..])
      invariant buf.c + EncodeAll(BulksOf(Strings(fmt[i..], args[a..], prefix))) == header
        + EncodeAll(BulksOf(Strings(fmt, args, prefix)))
      invariant KeySlot(fmt[i..], args[a..], prefix, slot) == KeySlot(fmt, args, prefix, None)
    {
      NextSpecifier(fmt[i..], args[a..], prefix, slot);
      assert fmt[i..][1..] == fmt[i + 1..];
      if Known(fmt[i]) {
        assert args[a..][1..] == args[a + 1..];
        var text := Argument(fmt[i], args[a], prefix);
        ghost var before := buf.c;
        buf.AppendBulk(text);
        Regroup(before, BulkBytes(text), EncodeAll(BulksOf(Strings(fmt[i + 1..], args[a + 1..], prefix))));
        if fmt[i] == 'k' {
          var s := HashTag.HashKey(text);
          slot := Some(s);
        }
        a := a + 1;
      }
      i := i + 1;
    }
    Finished(fmt, args, a, prefix, slot);
    SlotFromLastKey(fmt, args, prefix);
    cmd := buf.c;
    CommandIs(keyword, fmt, args, prefix, header);
  }

  // One argument as the specifier has it printed.
  method Argument(c: char, arg: Arg, prefix: seq<Byte>) returns (text: seq<Byte>)
    ensures text == Rendered(c, arg, prefix)
  {
    hide Print;
    match arg
    case Int(n) => text := Print(n);
    case Bytes(s) =>
      text := s;
      if c == 'k' { text := prefix + s; }
  }

  lemma Regroup(a: seq<Byte>, b: seq<Byte>, c: seq<Byte>)
    ensures a + (b + c) == (a + b) + c
  {}

  lemma CommandIs(keyword: seq<Byte>, fmt: string, args: seq<Arg>, prefix: seq<Byte>, header: seq<Byte>)
    requires header == [] + ([MULTI] + Print(|fmt| + 1) + NL + BulkBytes(keyword))
    ensures Command(keyword, fmt, args, prefix) == header + EncodeAll(BulksOf(Strings(fmt, args, prefix)))
  {
    hide Print, BulkBytes, EncodeAll;
  }

  lemma Finished(fmt: string, args: seq<Arg>, a: nat, prefix: seq<Byte>, slot: Option<Byte16>)
    requires a <= |args|
    ensures Strings(fmt[|fmt|..], args[a..], prefix) == [] && EncodeAll(BulksOf([])) == []
    ensures KeySlot(fmt[|fmt|..], args[a..], prefix, slot) == slot
  {
    assert fmt[|fmt|..] == [];
  }

  // What one character of the format stands for.
  lemma NextSpecifier(fmt: string, args: seq<Arg>, prefix: seq<Byte>, slot: Option<Byte16>)
    requires fmt != [] && Supplied(fmt, args)
    ensures !Known(fmt[0]) ==>
      && Supplied(fmt[1..], args) && Strings(fmt, args, prefix) == Strings(fmt[1..], args, prefix)
      && KeySlot(fmt, args, prefix, slot) == KeySlot(fmt[1..], args, prefix, slot)
    ensures Known(fmt[0]) ==>
      && args != [] && Supplied(fmt[1..], args[1..])
      && var text := Rendered(fmt[0], args[0], prefix);
         && EncodeAll(BulksOf(Strings(fmt, args, prefix))) == BulkBytes(text)
            + EncodeAll(BulksOf(Strings(fmt[1..], args[1..], prefix)))
         && KeySlot(fmt, args, prefix, slot) == KeySlot(fmt[1..], args[1..], prefix,
            if fmt[0] == 'k' then Some(HashTag.SlotOf(text)) else slot)
  {
    hide BulkBytes, HashTag.SlotOf, Rendered;
    if args == [] {
      assert Strings(fmt, args, prefix) == Strings(fmt[1..], args, prefix) == [];
      assert KeySlot(fmt, args, prefix, slot) == KeySlot(fmt[1..], args, prefix, slot) == slot;
    } else if Known(fmt[0]) {
      FirstBulk(Rendered(fmt[0], args[0], prefix), Strings(fmt[1..], args[1..], prefix));
    }
  }

  // ---------- reading ----------

  class Stream {
    var data: seq<Byte>      // what has not been read yet

    constructor (data: seq<Byte>)
      ensures this.data == data
    {
      this.data := data;
    }

    // php_stream_getc
    method Getc() returns (c: Option<Byte>)
      modifies this
      ensures c == (if old(data) == [] then None else Some(old(data)[0]))
      ensures data == if old(data) == [] then [] else old(data)[1..]
    {
      if data == [] { return None; }
      c := Some(data[0]);
      data := data[1..];
    }

    // php_stream_gets
    method Gets(size: nat) returns (line: Option<seq<Byte>>)
      requires size >= 2
      modifies this
      ensures line == (if old(data) == [] then None else Some(old(data)[..LineLength(old(data), size)]))
      ensures data == old(data)[LineLength(old(data), size)..]
    {
      if data == [] { return None; }
      var n := 0;
      ghost var all := LineLength(data, size);
      assert data[0..] == data;
      while n < |data| && n < size - 1 && (n == 0 || data[n - 1] != LF)
        invariant n <= |data| && n < size && n <= all
        invariant n == 0 || data[n - 1] != LF ==> all == n + LineLength(data[n..], size - n)
        invariant n > 0 && data[n - 1] == LF ==> all == n
      {
        assert data[n..][1..] == data[n + 1..];
        n := n + 1;
      }
      line := Some(data[..n]);
      data := data[n..];
    }

    // php_stream_read: at least one byte unless the stream has ended, but
    // perhaps fewer than asked for.
    method Read(n: nat) returns (got: seq<Byte>)
      requires n >= 1
      modifies this
      ensures old(data) == got + data && |got| <= n && (got == [] <==> old(data) == [])
    {
      if data == [] { return []; }
      var k :| 1 <= k <= |data| && k <= n;
      got := data[..k];
      data := data[k..];
    }

    // redis_sock_read_bulk_reply
    method ReadBulkReply(bytes: int) returns (r: Option<seq<Byte>>)
      modifies this
      ensures match ReadBulk(old(data), bytes)
        case None => r == None && data == if bytes < 0 then old(data) else []
        case Some((bulk, rest)) => r == Some(bulk) && data == rest
    {
      if bytes < 0 { return None; }
      ghost var s := data;
      var nbytes := bytes + 2;
      var reply: seq<Byte> := [];
      while |reply| < nbytes
        invariant |reply| <= nbytes && s == reply + data
        decreases nbytes - |reply|
      {
        var got := Read(nbytes - |reply|);
        if got == [] { break; }
        reply := reply + got;
      }
      if |reply| < nbytes { return None; }
      assert s[..nbytes] == reply && s[nbytes..] == data;
      assert reply[..bytes] == s[..bytes];
      r := Some(reply[..bytes]);
    }

    // redis_sock_gets
    method SockGets(size: nat) returns (r: Option<seq<Byte>>)
      requires size >= 2
      modifies this
      ensures data == old(data)[LineLength(old(data), size)..]
      ensures match ReadLine(old(data), size)
        case None => r == None
        case Some((text, rest)) => r == Some(text) && data == rest
    {
      ghost var s, n := data, LineLength(data, size);
      var line := Gets(size);
      match line
      case None => return None;
      case Some(l) =>
        assert n >= 2 ==> s[..n][..n - 2] == s[..n - 2];
        if |l| < 2 { return None; }
        r := Some(l[..|l| - 2]);
    }

    // redis_read_reply_type
    method ReadReplyType() returns (ok: bool, kind: Byte, info: int)
      modifies this
      ensures match ReadHead(old(data))
        case None => !ok && data == []
        case Some(h) => ok && kind == h.kind && info == h.info && data == h.rest
    {
      hide Atol, LineLength;
      ok, kind, info := false, 0, 0;
      ghost var s := data;
      var c := Getc();
      if c == None { return; }
      kind := c.value;
      if Numbered(kind) {
        var line := Gets(255);
        if line == None { return; }
        ghost var n := LineLength(s[1..], 255);
        assert s[1..][..n] == s[1..1 + n] && s[1..][n..] == s[1 + n..];
        info := Atol(line.value);
      }
      ok := true;
    }

    // redis_read_multibulk_recursive
    method ReadMulti(elements: int, strings: bool) returns (items: seq<Zval>, ok: bool)
      modifies this
      ensures Elements(items, data, ok) == Multi(old(data), elements, strings)
      decreases |data|, 1
    {
      hide ReadHead, Element, ReadLine, ReadBulk;
      ghost var goal := Multi(data, elements, strings);
      items := [];
      var n := elements;
      while n > 0
        invariant |data| <= |old(data)|
        invariant var m := Multi(data, n, strings); Elements(items + m.items, m.rest, m.ok) == goal
        decreases n
      {
        ghost var s, before := data, items;
        var got, kind, info := ReadReplyType();
        if !got { return items, false; }
        var more := ReadElement(kind, info, strings);
        items := items + more;
        n := n - 1;
        Join(before, more, Multi(data, n, strings).items);
      }
      ok := true;
    }

    // One turn of the switch on the type byte.
    method ReadElement(kind: Byte, info: int, strings: bool) returns (item: seq<Zval>)
      modifies this
      ensures (item, data) == Element(Head(kind, info, old(data)), strings)
      decreases |data|, 2
    {
      hide ReadLine, ReadBulk, LineLength, Multi;
      if kind == LINE || kind == ERR {
        var line := SockGets(VARIANT_BUFFER);
        match line
        case None => item := [Null];
        case Some(text) => item := [if kind == ERR then False else if strings then Text(text) else True];
      } else if kind == INT {
        item := [Long(info)];
      } else if kind == BULK {
        var bulk := ReadBulkReply(ToInt(info));
        match bulk
        case None => item := [False];
        case Some(text) => item := [Text(text)];
      } else if kind == MULTI {
        var sub, _ := ReadMulti(ToInt(info), strings);
        item := [Array(sub)];
      } else {
        item := [];
      }
    }

    // cluster_multibulk_resp_recursive
    method ReadCluster(elements: nat, strings: bool) returns (element: seq<Reply>, err: bool)
      modifies this
      ensures |data| <= |old(data)|
      ensures match ClusterRead(old(data), elements, strings)
        case Broken => err
        case Done(items, rest) => !err && element == items && data == rest
      decreases |data|, 1
    {
      hide ClusterRead, ClusterReadOne, Leads;
      ghost var s := data;
      element, err := [], false;
      var i := 0;
      LeadsAll(ClusterRead(s, elements, strings));
      while i < elements
        invariant i <= elements && |data| <= |s|
        invariant Leads(ClusterRead(s, elements, strings), ClusterRead(data, elements - i, strings), element)
      {
        NextReply(data, elements - i - 1, strings, ClusterRead(s, elements, strings), element);
        var r, lost := ReadClusterOne(strings);
        if lost { return element, true; }
        element := element + [r];
        i := i + 1;
      }
      LeadsNowhere(ClusterRead(s, elements, strings), data, strings, element);
    }

    method ReadClusterOne(strings: bool) returns (r: Reply, err: bool)
      modifies this
      ensures |data| <= |old(data)|
      ensures match ClusterReadOne(old(data), strings)
        case Lost => err
        case Got(item, rest) => !err && r == item && data == rest
      decreases |data|, 0
    {
      hide ReadHead, ReadLine, ReadBulk, LineLength, ClusterRead;
      r, err := Nil(-1), true;
      ghost var s := data;
      var ok, kind, len := ReadReplyType();
      if !ok { return; }
      if kind == LINE || kind == ERR {
        var line := SockGets(CLUSTER_BUFFER);
        match line
        case None => return;
        case Some(text) =>
          r := if !strings then Quiet(kind == ERR, |text|) else if kind == ERR then Failure(text) else Status(text);
      } else if kind == INT {
        r := Number(len);
      } else if kind == BULK {
        if len >= 0 {
          var bulk := ReadBulkReply(ToInt(len));
          match bulk
          case None => return;
          case Some(text) => r := Bulk(text);
        } else {
          r := Nil(len);
        }
      } else if kind == MULTI {
        if len >= 0 {
          var items, broken := ReadCluster(len, strings);
          if broken { return; }
          r := List(items);
        } else {
          r := NoList(len);
        }
      } else {
        return;
      }
      err := false;
    }
  }

  lemma Join(a: seq<Zval>, b: seq<Zval>, c: seq<Zval>)
    ensures a + (b + c) == (a + b) + c
  {}

  // Reading on gives here, and with what was read before it gives all.
  ghost predicate Leads(all: Outcome, here: Outcome, before: seq<Reply>) {
    if here.Broken? then all == Broken else all == Done(before + here.items, here.rest)
  }

  lemma LeadsAll(all: Outcome)
    ensures Leads(all, all, [])
  {}

  lemma LeadsNowhere(all: Outcome, s: seq<Byte>, strings: bool, before: seq<Reply>)
    requires Leads(all, ClusterRead(s, 0, strings), before)
    ensures all == Done(before, s)
  {}

  // One more reply, or the end of all reading.
  lemma NextReply(s: seq<Byte>, n: nat, strings: bool, all: Outcome, before: seq<Reply>)
    requires Leads(all, ClusterRead(s, n + 1, strings), before)
    ensures var one := ClusterReadOne(s, strings);
      if one.Lost? then all == Broken else Leads(all, ClusterRead(one.rest, n, strings), before + [one.item])
  {
    hide ClusterReadOne;
    var one := ClusterReadOne(s, strings);
    if one.Got? {
      var more := ClusterRead(one.rest, n, strings);
      if more.Done? {
        assert before + ([one.item] + more.items) == (before + [one.item]) + more.items;
      }
    }
  }
}
