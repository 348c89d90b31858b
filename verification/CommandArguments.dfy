/** What becomes of every argument of a command, and which key gives its slot. */
module CommandArguments {
  import opened Options
  import opened Decimal
  import opened RespSpec
  import opened RespCommands
  import HashTag

  // The number of specifiers before position i: what stands at i is for the
  // argument of this rank.
  function Rank(fmt: string, i: nat): nat
    requires i <= |fmt|
  {
    if i == 0 then 0 else Rank(fmt, i - 1) + if fmt[i - 1] in "sSkvfFidlL" then 1 else 0
  }

  lemma KnownLetters(c: char)
    ensures Known(c) <==> c in "sSkvfFidlL"
    ensures Known(c) <==> c in "sSvfF" || c in "idlL" || c == 'k'
    ensures c in ['i', 'd', 'l', 'L'] <==> c in "idlL"
    ensures !(c in "sSvfF" && c in "idlL") && 'k' !in "sSvfF" && 'k' !in "idlL"
  {}

  lemma {:induction false} RankShift(fmt: string, i: nat)
    requires 1 <= i <= |fmt|
    ensures Rank(fmt, i) == Rank(fmt[1..], i - 1) + if fmt[0] in "sSkvfFidlL" then 1 else 0
  {
    if i > 1 { RankShift(fmt, i - 1); }
  }

  // text is what the specifier c makes of an argument.
  ghost predicate Spells(c: char, arg: Arg, prefix: seq<Byte>, text: seq<Byte>) {
    && (c == 'k' ==> arg.Bytes? && text == prefix + arg.s)
    && (c in "sSvfF" ==> arg.Bytes? && text == arg.s)
    && (c in "idlL" ==> arg.Int? && text == Print(arg.n))
  }

  // Every specifier has its argument, and every argument its specifier.
  lemma {:induction false} StringAt(fmt: string, args: seq<Arg>, prefix: seq<Byte>, i: nat)
    requires Supplied(fmt, args) && i < |fmt| && fmt[i] in "sSkvfFidlL"
    ensures var a := Rank(fmt, i);
      a < |args| && a < |Strings(fmt, args, prefix)| && Spells(fmt[i], args[a], prefix, Strings(fmt, args, prefix)[a])
  {
    hide Spells, Rendered, Known;
    KnownLetters(fmt[0]);
    if i == 0 {
      SpellsRendered(fmt[0], args[0], prefix);
    } else {
      var known := fmt[0] in "sSkvfFidlL";
      var args' := if known then args[1..] else args;
      StringAt(fmt[1..], args', prefix, i - 1);
      RankShift(fmt, i);
    }
  }

  lemma SpellsRendered(c: char, arg: Arg, prefix: seq<Byte>)
    requires Known(c) && (arg.Int? <==> c in ['i', 'd', 'l', 'L'])
    ensures Spells(c, arg, prefix, Rendered(c, arg, prefix))
  {
    KnownLetters(c);
  }

  lemma {:induction false} CountStrings(fmt: string, args: seq<Arg>, prefix: seq<Byte>)
    requires Supplied(fmt, args)
    ensures |Strings(fmt, args, prefix)| == |args| == Rank(fmt, |fmt|)
  {
    hide Rendered, Known;
    if fmt != [] {
      KnownLetters(fmt[0]);
      CountStrings(fmt[1..], if fmt[0] in "sSkvfFidlL" then args[1..] else args, prefix);
      RankShift(fmt, |fmt|);
    }
  }

  // The slot is that of the last key, with its prefix; without a key there is none.
  ghost predicate FromLastKey(fmt: string, args: seq<Arg>, prefix: seq<Byte>, slot: Option<Byte16>) {
    && ('k' !in fmt ==> slot == None)
    && forall i :: 0 <= i < |fmt| && fmt[i] == 'k' && 'k' !in fmt[i + 1..] ==>
         var a := Rank(fmt, i);
         a < |args| && args[a].Bytes? && slot == Some(HashTag.SlotOf(prefix + args[a].s))
  }

  lemma SlotFromLastKey(fmt: string, args: seq<Arg>, prefix: seq<Byte>)
    requires Supplied(fmt, args)
    ensures FromLastKey(fmt, args, prefix, KeySlot(fmt, args, prefix, None))
  {
    hide KeySlot, HashTag.SlotOf, Supplied, Rank;
    if 'k' !in fmt { NoKey(fmt, args, prefix, None); }
    forall i | 0 <= i < |fmt| && fmt[i] == 'k' && 'k' !in fmt[i + 1..]
      ensures var a := Rank(fmt, i);
        a < |args| && args[a].Bytes? && KeySlot(fmt, args, prefix, None) == Some(HashTag.SlotOf(prefix + args[a].s))
    {
      LastKey(fmt, args, prefix, None, i);
    }
  }

  lemma {:induction false} NoKey(fmt: string, args: seq<Arg>, prefix: seq<Byte>, slot: Option<Byte16>)
    requires Supplied(fmt, args) && 'k' !in fmt
    ensures KeySlot(fmt, args, prefix, slot) == slot
  {
    hide HashTag.SlotOf, Known;
    if fmt != [] { NoKey(fmt[1..], if Known(fmt[0]) then args[1..] else args, prefix, slot); }
  }

  lemma {:induction false} LastKey(fmt: string, args: seq<Arg>, prefix: seq<Byte>, slot: Option<Byte16>, i: nat)
    requires Supplied(fmt, args) && i < |fmt| && fmt[i] == 'k' && 'k' !in fmt[i + 1..]
    ensures var a := Rank(fmt, i);
      a < |args| && args[a].Bytes? && KeySlot(fmt, args, prefix, slot) == Some(HashTag.SlotOf(prefix + args[a].s))
  {
    hide HashTag.SlotOf, Known;
    KnownLetters(fmt[0]);
    if i == 0 {
      NoKey(fmt[1..], args[1..], prefix, Some(HashTag.SlotOf(prefix + args[0].s)));
    } else {
      var args' := if Known(fmt[0]) then args[1..] else args;
      assert fmt[1..][i..] == fmt[i + 1..];
      RankShift(fmt, i);
      LastKey(fmt[1..], args', prefix,
              if fmt[0] == 'k' then Some(HashTag.SlotOf(Rendered(fmt[0], args[0], prefix))) else slot, i - 1);
    }
  }

  // A command is read back as its keyword and, for every specifier, the text that
  // this specifier makes of its argument: a key with its prefix, any other text as
  // it is, a number in decimal.
  lemma ArgumentsReadBack(kw: seq<Byte>, fmt: string, args: seq<Arg>, prefix: seq<Byte>)
    requires Supplied(fmt, args) && Modest(kw, fmt, args, prefix)
    ensures var h := ReadHead(Command(kw, fmt, args, prefix));
      && h.Some? && h.value.kind == MULTI && h.value.info == |fmt| + 1
      && var r := Multi(h.value.rest, h.value.info, true);
         && r.rest == [] && r.ok == (forall i :: 0 <= i < |fmt| ==> fmt[i] in "sSkvfFidlL")
         && |r.items| == 1 + |args| && r.items[0] == Text(kw)
         && forall i :: 0 <= i < |fmt| && fmt[i] in "sSkvfFidlL" ==>
              var a := Rank(fmt, i);
              a < |args| && r.items[1 + a].Text? && Spells(fmt[i], args[a], prefix, r.items[1 + a].data)
  {
    hide Multi, ReadHead, Command, Strings, Supplied, BulksOf, ViewAll, Modest, Known, Spells;
    var ss := Strings(fmt, args, prefix);
    ReadBack(kw, fmt, args, prefix);
    CountStrings(fmt, args, prefix);
    ViewTexts([kw] + ss);
    forall i | 0 <= i < |fmt| ensures Known(fmt[i]) <==> fmt[i] in "sSkvfFidlL" { KnownLetters(fmt[i]); }
    forall i | 0 <= i < |fmt| && fmt[i] in "sSkvfFidlL"
      ensures var a := Rank(fmt, i);
        a < |args| && ([kw] + ss)[1 + a] == ss[a] && Spells(fmt[i], args[a], prefix, ss[a])
    {
      StringAt(fmt, args, prefix, i);
    }
  }

  lemma {:induction false} ViewTexts(ss: seq<seq<Byte>>)
    ensures var v := ViewAll(BulksOf(ss), true); |v| == |ss| && forall i :: 0 <= i < |ss| ==> v[i] == Text(ss[i])
  {
    if ss != [] {
      ViewTexts(ss[1..]);
      assert BulksOf(ss)[1..] == BulksOf(ss[1..]);
    }
  }
}
