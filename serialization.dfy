/**
 * The length-prefixed layouts that the prover writes into a `Vec<u8>` and
 * reads back from a plonky2 `Buffer`: a `usize` count followed by the
 * items.  A `usize` is written as a `u64`, eight bytes least significant
 * first; an item whose own layout belongs to plonky2 (a target, a chain of
 * circuits) is written and read by a `Codec` given as a parameter.
 */
module Serialization {
  import opened Wrappers
  import opened OrderedMap

  type Byte = x: nat | x < 256

  /** A `usize` on a 64-bit target. */
  type Usize = x: nat | x < 0x1_0000_0000_0000_0000

  const USIZE_BYTES: nat := 8

  /** plonky2's `IoError`: the buffer ended, or held something that is not an item. */
  datatype IoError = IoError

  /** 256 to the power `n`. */
  function Radix(n: nat): (r: nat)
    ensures r >= 1
  {
    if n == 0 then 1 else 256 * Radix(n - 1)
  }

  /** The `n` low bytes of `x`, least significant first. */
  function LeBytes(x: nat, n: nat): (b: seq<Byte>)
    ensures |b| == n
  {
    if n == 0 then [] else [x % 256] + LeBytes(x / 256, n - 1)
  }

  /** The number that little-endian bytes spell. */
  function LeValue(b: seq<Byte>): nat
  {
    if |b| == 0 then 0 else b[0] + 256 * LeValue(b[1..])
  }

  lemma {:induction false} LeValueBound(b: seq<Byte>)
    ensures LeValue(b) < Radix(|b|)
  {
    if |b| > 0 {
      LeValueBound(b[1..]);
    }
  }

  /** Reading back the bytes of a number below 256^n gives the number. */
  lemma {:induction false} LeValueOfLeBytes(x: nat, n: nat)
    requires x < Radix(n)
    ensures LeValue(LeBytes(x, n)) == x
  {
    if n > 0 {
      assert LeBytes(x, n)[1..] == LeBytes(x / 256, n - 1);
      LeValueOfLeBytes(x / 256, n - 1);
    }
  }

  lemma UsizeRadix()
    ensures Radix(USIZE_BYTES) == 0x1_0000_0000_0000_0000
  {
  }

  /** `write_usize`. */
  function WriteUsize(x: Usize): (b: seq<Byte>)
    ensures |b| == USIZE_BYTES
  {
    LeBytes(x, USIZE_BYTES)
  }

  /** `read_usize` at `pos`: the value and the position after it, or an error when fewer than eight bytes remain. */
  function ReadUsize(buf: seq<Byte>, pos: nat): (r: Result<(Usize, nat), IoError>)
    ensures r.Ok? <==> pos + USIZE_BYTES <= |buf|
    ensures r.Ok? ==> r.value.1 == pos + USIZE_BYTES
  {
    if pos + USIZE_BYTES <= |buf| then
      var b := buf[pos..pos + USIZE_BYTES];
      LeValueBound(b);
      UsizeRadix();
      Ok((LeValue(b), pos + USIZE_BYTES))
    else Err(IoError)
  }

  /** How one kind of item is written, and read back at a position. */
  datatype Codec<!T> = Codec(write: T -> seq<Byte>, read: (seq<Byte>, nat) -> Result<(T, nat), IoError>)

  /** Reading where an item was written gives the item and the position just after it, whatever surrounds it. */
  ghost predicate Decodes<T(!new)>(c: Codec<T>)
  {
    forall x: T, pre: seq<Byte>, post: seq<Byte> ::
      c.read(pre + c.write(x) + post, |pre|) == Ok((x, |pre| + |c.write(x)|))
  }

  /** A `usize` item. */
  function UsizeCodec(): Codec<Usize>
  {
    Codec((x: Usize) => WriteUsize(x), (buf: seq<Byte>, pos: nat) => ReadUsize(buf, pos))
  }

  lemma ReadUsizeWritten(pre: seq<Byte>, x: Usize, post: seq<Byte>)
    ensures ReadUsize(pre + WriteUsize(x) + post, |pre|) == Ok((x, |pre| + USIZE_BYTES))
  {
    var buf := pre + WriteUsize(x) + post;
    assert buf[|pre|..|pre| + USIZE_BYTES] == WriteUsize(x);
    UsizeRadix();
    LeValueOfLeBytes(x, USIZE_BYTES);
  }

  lemma UsizeDecodes()
    ensures Decodes(UsizeCodec())
  {
    forall x: Usize, pre: seq<Byte>, post: seq<Byte>
      ensures ReadUsize(pre + WriteUsize(x) + post, |pre|) == Ok((x, |pre| + USIZE_BYTES))
    {
      ReadUsizeWritten(pre, x, post);
    }
  }

  /** Two items one after the other. */
  function ReadPair<A, B>(ca: Codec<A>, cb: Codec<B>, buf: seq<Byte>, pos: nat): Result<((A, B), nat), IoError>
  {
    match ca.read(buf, pos)
    case Err(e) => Err(e)
    case Ok((a, p)) =>
      match cb.read(buf, p)
      case Err(e) => Err(e)
      case Ok((b, q)) => Ok(((a, b), q))
  }

  function PairCodec<A, B>(ca: Codec<A>, cb: Codec<B>): Codec<(A, B)>
  {
    Codec((x: (A, B)) => ca.write(x.0) + cb.write(x.1), (buf: seq<Byte>, pos: nat) => ReadPair(ca, cb, buf, pos))
  }

  lemma PairDecodes<A(!new), B(!new)>(ca: Codec<A>, cb: Codec<B>)
    requires Decodes(ca) && Decodes(cb)
    ensures Decodes(PairCodec(ca, cb))
  {
    forall x: (A, B), pre: seq<Byte>, post: seq<Byte>
      ensures ReadPair(ca, cb, pre + (ca.write(x.0) + cb.write(x.1)) + post, |pre|)
           == Ok((x, |pre| + |ca.write(x.0) + cb.write(x.1)|))
    {
      var wa, wb := ca.write(x.0), cb.write(x.1);
      var buf := pre + (wa + wb) + post;
      assert buf == pre + wa + (wb + post);
      assert ca.read(buf, |pre|) == Ok((x.0, |pre| + |wa|));
      assert buf == (pre + wa) + wb + post;
      assert cb.read(buf, |pre + wa|) == Ok((x.1, |pre + wa| + |wb|));
    }
  }

  /** The items written one after the other. */
  function Items<T>(c: Codec<T>, xs: seq<T>): seq<Byte>
  {
    if |xs| == 0 then [] else Items(c, xs[..|xs| - 1]) + c.write(xs[|xs| - 1])
  }

  lemma {:induction false} ItemsAppend<T>(c: Codec<T>, xs: seq<T>, ys: seq<T>)
    ensures Items(c, xs + ys) == Items(c, xs) + Items(c, ys)
    decreases |ys|
  {
    if |ys| == 0 {
      assert xs + ys == xs;
    } else {
      var n := |ys| - 1;
      assert (xs + ys)[..|xs + ys| - 1] == xs + ys[..n];
      ItemsAppend(c, xs, ys[..n]);
    }
  }

  lemma ItemsCons<T>(c: Codec<T>, xs: seq<T>)
    requires |xs| > 0
    ensures Items(c, xs) == c.write(xs[0]) + Items(c, xs[1..])
  {
    ItemsAppend(c, [xs[0]], xs[1..]);
    assert [xs[0]] + xs[1..] == xs;
    assert [xs[0]][..0] == [];
  }

  /** A count, then the items: the layout of `to_buffer`. */
  function ListBytes<T>(c: Codec<T>, xs: seq<T>): seq<Byte>
    requires |xs| < 0x1_0000_0000_0000_0000
  {
    WriteUsize(|xs|) + Items(c, xs)
  }

  /** `to_buffer`: append the count and then every item to `buffer`. */
  method WriteList<T>(buffer: seq<Byte>, c: Codec<T>, xs: seq<T>) returns (out: seq<Byte>)
    requires |xs| < 0x1_0000_0000_0000_0000
    ensures out == buffer + ListBytes(c, xs)
  {
    out := buffer + WriteUsize(|xs|);
    for k := 0 to |xs|
      invariant out == buffer + WriteUsize(|xs|) + Items(c, xs[..k])
    {
      assert xs[..k + 1][..k] == xs[..k];
      out := out + c.write(xs[k]);
    }
    assert xs[..|xs|] == xs;
  }

  /** `out` with `items` before its items. */
  function Prefixed<T>(items: seq<T>, r: Result<(seq<T>, nat), IoError>): Result<(seq<T>, nat), IoError>
  {
    match r
    case Err(e) => Err(e)
    case Ok((xs, q)) => Ok((items + xs, q))
  }

  /** `n` items read one after the other from `pos`, or the first error. */
  function ReadItems<T>(c: Codec<T>, buf: seq<Byte>, pos: nat, n: nat): Result<(seq<T>, nat), IoError>
    decreases n
  {
    if n == 0 then Ok(([], pos))
    else
      match c.read(buf, pos)
      case Err(e) => Err(e)
      case Ok((x, p)) => Prefixed([x], ReadItems(c, buf, p, n - 1))
  }

  /** One more item read off the front of the rest moves to the end of those already read. */
  lemma ReadItemsStep<T>(c: Codec<T>, buf: seq<Byte>, pos: nat, n: nat, done: seq<T>)
    requires n > 0
    ensures c.read(buf, pos).Err? ==> Prefixed(done, ReadItems(c, buf, pos, n)) == Err(c.read(buf, pos).error)
    ensures c.read(buf, pos).Ok? ==>
      Prefixed(done, ReadItems(c, buf, pos, n))
      == Prefixed(done + [c.read(buf, pos).value.0], ReadItems(c, buf, c.read(buf, pos).value.1, n - 1))
  {
    match c.read(buf, pos)
    case Err(e) =>
    case Ok((x, p)) =>
      match ReadItems(c, buf, p, n - 1)
      case Err(_) =>
      case Ok((xs, q)) =>
        assert done + ([x] + xs) == done + [x] + xs;
  }

  lemma PrefixedNothing<T>(r: Result<(seq<T>, nat), IoError>)
    ensures Prefixed([], r) == r
  {
    match r
    case Err(_) =>
    case Ok((xs, q)) =>
      assert [] + xs == xs;
  }

  /** A count and then that many items, as `from_buffer` reads a list. */
  function ReadList<T>(c: Codec<T>, buf: seq<Byte>, pos: nat): Result<(seq<T>, nat), IoError>
  {
    match ReadUsize(buf, pos)
    case Err(e) => Err(e)
    case Ok((n, p)) => ReadItems(c, buf, p, n)
  }

  lemma {:induction false} ReadItemsWritten<T(!new)>(c: Codec<T>, pre: seq<Byte>, xs: seq<T>, post: seq<Byte>)
    requires Decodes(c)
    ensures ReadItems(c, pre + Items(c, xs) + post, |pre|, |xs|) == Ok((xs, |pre| + |Items(c, xs)|))
    decreases |xs|
  {
    if |xs| > 0 {
      ItemsCons(c, xs);
      var w, rest := c.write(xs[0]), xs[1..];
      var buf := pre + Items(c, xs) + post;
      assert buf == pre + w + (Items(c, rest) + post);
      assert c.read(buf, |pre|) == Ok((xs[0], |pre| + |w|));
      assert buf == (pre + w) + Items(c, rest) + post;
      ReadItemsWritten(c, pre + w, rest, post);
      assert [xs[0]] + rest == xs;
    }
  }

  /** Reading a list where one was written gives it back, and the position just after it. */
  lemma ReadListWritten<T(!new)>(c: Codec<T>, pre: seq<Byte>, xs: seq<T>, post: seq<Byte>)
    requires Decodes(c) && |xs| < 0x1_0000_0000_0000_0000
    ensures ReadList(c, pre + ListBytes(c, xs) + post, |pre|) == Ok((xs, |pre| + |ListBytes(c, xs)|))
  {
    var buf := pre + ListBytes(c, xs) + post;
    assert buf == pre + WriteUsize(|xs|) + (Items(c, xs) + post);
    ReadUsizeWritten(pre, |xs|, Items(c, xs) + post);
    assert buf == (pre + WriteUsize(|xs|)) + Items(c, xs) + post;
    ReadItemsWritten(c, pre + WriteUsize(|xs|), xs, post);
  }

  /**
   * `GrandProductChallengeSet::from_buffer`: the count, then a `beta` and a
   * `gamma` target per challenge, pushed in order.
   */
  method ChallengeSetFromBuffer<Tgt>(buf: seq<Byte>, pos: nat, target: Codec<Tgt>)
    returns (r: Result<(seq<(Tgt, Tgt)>, nat), IoError>)
    ensures r == ReadList(PairCodec(target, target), buf, pos)
  {
    var c := PairCodec(target, target);
    var length := ReadUsize(buf, pos);
    if length.Err? {
      return Err(length.error);
    }
    var n, p := length.value.0, length.value.1;
    var challenges: seq<(Tgt, Tgt)> := [];
    PrefixedNothing(ReadItems(c, buf, p, n));
    for k := 0 to n
      invariant ReadList(c, buf, pos) == Prefixed(challenges, ReadItems(c, buf, p, n - k))
    {
      ReadItemsStep(c, buf, p, n - k, challenges);
      assert c.read(buf, p) == ReadPair(target, target, buf, p);
      var beta := target.read(buf, p);
      if beta.Err? {
        return Err(beta.error);
      }
      var gamma := target.read(buf, beta.value.1);
      if gamma.Err? {
        return Err(gamma.error);
      }
      challenges := challenges + [(beta.value.0, gamma.value.0)];
      p := gamma.value.1;
    }
    assert challenges + [] == challenges;
    return Ok((challenges, p));
  }

  /** `GrandProductChallengeSet::to_buffer`. */
  method ChallengeSetToBuffer<Tgt>(buffer: seq<Byte>, challenges: seq<(Tgt, Tgt)>, target: Codec<Tgt>)
    returns (out: seq<Byte>)
    requires |challenges| < 0x1_0000_0000_0000_0000
    ensures out == buffer + ListBytes(PairCodec(target, target), challenges)
  {
    out := WriteList(buffer, PairCodec(target, target), challenges);
  }

  /** A challenge set read back where it was written is the same set. */
  lemma ChallengeSetRoundTrip<Tgt(!new)>(target: Codec<Tgt>, pre: seq<Byte>, challenges: seq<(Tgt, Tgt)>, post: seq<Byte>)
    requires Decodes(target) && |challenges| < 0x1_0000_0000_0000_0000
    ensures ReadList(PairCodec(target, target), pre + ListBytes(PairCodec(target, target), challenges) + post, |pre|)
         == Ok((challenges, |pre| + |ListBytes(PairCodec(target, target), challenges)|))
  {
    PairDecodes(target, target);
    ReadListWritten(PairCodec(target, target), pre, challenges, post);
  }

  /** The entries of a per-size map: a `usize` key, then the chain of circuits for it. */
  function EntryCodec<T>(chain: Codec<T>): Codec<(Usize, T)>
  {
    PairCodec(UsizeCodec(), chain)
  }

  /** The entries with the key's type forgotten, as the ordered map holds them. */
  function Widen<T>(entries: seq<(Usize, T)>): (m: seq<(nat, T)>)
    ensures |m| == |entries| && forall i :: 0 <= i < |m| ==> m[i] == entries[i]
  {
    seq(|entries|, i requires 0 <= i < |entries| => (entries[i].0 as nat, entries[i].1))
  }

  /** A map read from a buffer: the entries as read, each inserted in turn. */
  function ReadTable<T>(chain: Codec<T>, buf: seq<Byte>, pos: nat): Result<(seq<(nat, T)>, nat), IoError>
  {
    match ReadList(EntryCodec(chain), buf, pos)
    case Err(e) => Err(e)
    case Ok((entries, q)) => Ok((InsertAll([], Widen(entries)), q))
  }

  /** A map's entries with keys narrowed to `usize`; every key of a `by_stark_size` map is one. */
  function Narrow<T>(m: seq<(nat, T)>): (entries: seq<(Usize, T)>)
    requires forall i :: 0 <= i < |m| ==> m[i].0 < 0x1_0000_0000_0000_0000
    ensures |entries| == |m| && Widen(entries) == m
  {
    seq(|m|, i requires 0 <= i < |m| => (m[i].0 as Usize, m[i].1))
  }

  /** `RecursiveCircuitsForTable::to_buffer`: the count, then key and chain of every entry in ascending key order. */
  method TableToBuffer<T>(buffer: seq<Byte>, m: seq<(nat, T)>, chain: Codec<T>) returns (out: seq<Byte>)
    requires |m| < 0x1_0000_0000_0000_0000
    requires forall i :: 0 <= i < |m| ==> m[i].0 < 0x1_0000_0000_0000_0000
    ensures out == buffer + ListBytes(EntryCodec(chain), Narrow(m))
  {
    out := WriteList(buffer, EntryCodec(chain), Narrow(m));
  }

  /** `RecursiveCircuitsForTable::from_buffer`: read the count, then read and insert that many entries. */
  method TableFromBuffer<T>(buf: seq<Byte>, pos: nat, chain: Codec<T>)
    returns (r: Result<(seq<(nat, T)>, nat), IoError>)
    ensures r == ReadTable(chain, buf, pos)
  {
    var c := EntryCodec(chain);
    var length := ReadUsize(buf, pos);
    if length.Err? {
      return Err(length.error);
    }
    var n, p := length.value.0, length.value.1;
    var bySize: seq<(nat, T)> := [];
    ghost var read: seq<(Usize, T)> := [];
    PrefixedNothing(ReadItems(c, buf, p, n));
    for k := 0 to n
      invariant Ascending(bySize) && bySize == InsertAll([], Widen(read))
      invariant ReadList(c, buf, pos) == Prefixed(read, ReadItems(c, buf, p, n - k))
    {
      ReadItemsStep(c, buf, p, n - k, read);
      assert c.read(buf, p) == ReadPair(UsizeCodec(), chain, buf, p);
      var key := ReadUsize(buf, p);
      if key.Err? {
        return Err(key.error);
      }
      var table := chain.read(buf, key.value.1);
      if table.Err? {
        return Err(table.error);
      }
      InsertRead(read, key.value.0, table.value.0);
      bySize := Insert(bySize, key.value.0, table.value.0);
      read := read + [(key.value.0, table.value.0)];
      p := table.value.1;
    }
    assert read + [] == read;
    return Ok((bySize, p));
  }

  /** The map after one more entry is read: the map before, with that entry inserted. */
  lemma InsertRead<T>(read: seq<(Usize, T)>, k: Usize, v: T)
    ensures InsertAll([], Widen(read + [(k, v)])) == Insert(InsertAll([], Widen(read)), k, v)
  {
    assert Widen(read + [(k, v)]) == Widen(read) + [(k as nat, v)];
    InsertAllSnoc([], Widen(read), k, v);
  }

  lemma {:induction false} InsertAllSnoc<T>(m: seq<(nat, T)>, entries: seq<(nat, T)>, k: nat, v: T)
    requires Ascending(m)
    ensures InsertAll(m, entries + [(k, v)]) == Insert(InsertAll(m, entries), k, v)
    decreases |entries|
  {
    if |entries| == 0 {
      assert entries + [(k, v)] == [(k, v)];
      assert [(k, v)][1..] == [];
    } else {
      assert (entries + [(k, v)])[0] == entries[0];
      assert (entries + [(k, v)])[1..] == entries[1..] + [(k, v)];
      InsertAllSnoc(Insert(m, entries[0].0, entries[0].1), entries[1..], k, v);
    }
  }

  /** A map with `usize` keys read back where it was written is the same map. */
  lemma TableRoundTrip<T(!new)>(chain: Codec<T>, pre: seq<Byte>, m: seq<(nat, T)>, post: seq<Byte>)
    requires Decodes(chain) && Ascending(m) && |m| < 0x1_0000_0000_0000_0000
    requires forall i :: 0 <= i < |m| ==> m[i].0 < 0x1_0000_0000_0000_0000
    ensures ReadTable(chain, pre + ListBytes(EntryCodec(chain), Narrow(m)) + post, |pre|)
         == Ok((m, |pre| + |ListBytes(EntryCodec(chain), Narrow(m))|))
  {
    EntryDecodes(chain);
    ReadListWritten(EntryCodec(chain), pre, Narrow(m), post);
    ReadTableOfList(chain, pre + ListBytes(EntryCodec(chain), Narrow(m)) + post, |pre|, m,
                    |pre| + |ListBytes(EntryCodec(chain), Narrow(m))|);
  }

  lemma ReadTableOfList<T>(chain: Codec<T>, buf: seq<Byte>, pos: nat, m: seq<(nat, T)>, q: nat)
    requires Ascending(m) && forall i :: 0 <= i < |m| ==> m[i].0 < 0x1_0000_0000_0000_0000
    requires ReadList(EntryCodec(chain), buf, pos) == Ok((Narrow(m), q))
    ensures ReadTable(chain, buf, pos) == Ok((m, q))
  {
    assert [] + m == m;
    InsertAllAscending([], m);
  }

  lemma EntryDecodes<T(!new)>(chain: Codec<T>)
    requires Decodes(chain)
    ensures Decodes(EntryCodec(chain))
  {
    UsizeDecodes();
    PairDecodes(UsizeCodec(), chain);
  }
}
