/** What the two readers make of replies that are cut short or unknown. */
module ReplyFailures {
  import opened Options
  import opened Decimal
  import opened RespSpec
  import opened RespCommands

  // A line ends behind its first line feed, at the end of the stream, or where the
  // buffer is full but for one byte.
  lemma {:induction false} LineCut(s: seq<Byte>, size: nat)
    requires size >= 2
    ensures var n := LineLength(s, size);
      && n <= |s| && n <= size - 1
      && (n == |s| || n == size - 1 || (n >= 1 && s[n - 1] == LF))
      && forall i :: 0 <= i < n - 1 ==> s[i] != LF
  {
    if s != [] && s[0] != LF && size > 2 { LineCut(s[1..], size - 1); }
  }

  // A line that does not fit its buffer loses the last two bytes of what fits, and
  // the rest of it is read as what follows.
  lemma LongLine(s: seq<Byte>, size: nat)
    requires size >= 3 && |s| >= size - 1 && forall i :: 0 <= i < size - 2 ==> s[i] != LF
    ensures ReadLine(s, size) == Some((s[..size - 3], s[size - 1..]))
  {
    hide LineLength;
    LineCut(s, size);
  }

  // Of the number behind a type byte at most 254 bytes are taken.
  lemma LongNumber(kind: Byte, s: seq<Byte>)
    requires kind in {INT, BULK, MULTI} && |s| >= 254 && forall i :: 0 <= i < 253 ==> s[i] != LF
    ensures ReadHead([kind] + s) == Some(Head(kind, Atol(s[..254]), s[254..]))
  {
    hide LineLength, Atol;
    LineCut(s, 255);
    assert ([kind] + s)[1..] == s && ([kind] + s)[1..255] == s[..254] && ([kind] + s)[255..] == s[254..];
  }

  // A type byte that is none of the five: the reader of library.c passes over it
  // and the cluster reader gives up.
  lemma UnknownType(kind: Byte, s: seq<Byte>, n: nat, strings: bool)
    requires kind !in {LINE, ERR, INT, BULK, MULTI} && n >= 1
    ensures Multi([kind] + s, n, strings) == Multi(s, n - 1, strings)
    ensures ClusterRead([kind] + s, n, strings) == Broken
  {
    hide Multi, ReadLine, ReadBulk, ReadHead;
    KindsOnly(kind);
    LineHead(kind, s);
    var h := Head(kind, 0, s);
    assert Element(h, strings) == ([], s);
    MultiStep([kind] + s, n, strings);
  }

  lemma KindsOnly(kind: Byte)
    ensures Numbered(kind) <==> kind in {INT, BULK, MULTI}
  {}

  lemma MultiStep(s: seq<Byte>, n: nat, strings: bool)
    requires n >= 1 && ReadHead(s).Some?
    ensures var (item, rest) := Element(ReadHead(s).value, strings); var more := Multi(rest, n - 1, strings);
      Multi(s, n, strings) == Elements(item + more.items, more.rest, more.ok)
  {
    hide Element, ReadHead;
  }

  // A bulk that ends before its length: false for the reader of library.c, which
  // does not fail, and an error for the cluster reader. Nothing is left to read.
  lemma ShortBulk(len: nat, data: seq<Byte>, strings: bool)
    requires len + 2 <= INT_MAX && |data| < len + 2
    ensures Multi([BULK] + Print(len) + NL + data, 1, strings) == Elements([False], [], true)
    ensures ClusterRead([BULK] + Print(len) + NL + data, 1, strings) == Broken
  {
    hide Print, ReadHead, ReadLine, Multi, Numbered;
    Kinds();
    var s := [BULK] + Print(len) + NL + data;
    HeadOf(BULK, len, data);
    ToIntFits(len);
    NoBulkIn(data, len);
    NoElements([], 0, strings);
    MultiStep(s, 1, strings);
  }

  lemma NoBulkIn(data: seq<Byte>, len: nat)
    requires |data| < len + 2
    ensures ReadBulk(data, len) == None
  {}

  // A nested list with fewer elements than it announces: the reader of library.c
  // returns what there is as if it were complete, the cluster reader fails.
  lemma ShortList(len: nat, rs: seq<Reply>, strings: bool)
    requires |rs| < len <= INT_MAX && FitAll(rs, CLUSTER_BUFFER) && FitAll(rs, VARIANT_BUFFER) && AllStandard(rs)
    ensures var s := [MULTI] + Print(len) + NL + EncodeAll(rs);
      && Multi(s, 1, strings) == Elements([Array(ViewAll(rs, strings))], [], true)
      && ClusterRead(s, 1, strings) == Broken
  {
    hide Print, ReadHead, ReadLine, ReadBulk, Multi, EncodeAll, FitAll, ViewAll, AllStandard, Numbered, ClusterRead;
    Kinds();
    var s := [MULTI] + Print(len) + NL + EncodeAll(rs);
    HeadOf(MULTI, len, EncodeAll(rs));
    ToIntFits(len);
    MultiShort(rs, len, strings);
    ClusterShort(rs, len, strings);
    NoElements([], 0, strings);
    MultiStep(s, 1, strings);
    FirstLost(s, strings);
  }

  lemma FirstLost(s: seq<Byte>, strings: bool)
    requires ClusterReadOne(s, strings) == Lost
    ensures ClusterRead(s, 1, strings) == Broken
  {}
}
