/** The serialised form of a parallel component's nested networks, as
    `WriteData` writes it and `ReadData` reads it: `<NestedNnetCount> n`,
    then for each network `<NestedNnet> i` followed by the network, then
    `</ParallelComponent>`. A stream is a sequence of items: a token, an
    integer or a whole nested network (whose own format is not part of this
    model). The reader ignores the index after `<NestedNnet>`. */
module ParallelStream {
  import opened Wrappers
  import opened NestedNnets

  datatype Item = Token(text: string) | Int(n: int) | Net(nnet: Nnet)

  /** Networks read, and the stream position just after them. */
  datatype Loaded = Loaded(nets: seq<Nnet>, next: nat)

  const CountTag: string := "<NestedNnetCount>"
  const NetTag: string := "<NestedNnet>"
  const EndTag: string := "</ParallelComponent>"

  /** The three items of network `i`, which `WriteData` numbers from 1. */
  function Entry(ns: seq<Nnet>, i: nat): seq<Item>
    requires i < |ns|
  {
    [Token(NetTag), Int(i + 1), Net(ns[i])]
  }

  /** The entries of the first `k` networks. */
  function Entries(ns: seq<Nnet>, k: nat): (s: seq<Item>)
    requires k <= |ns|
    ensures |s| == 3 * k
  {
    if k == 0 then [] else Entries(ns, k - 1) + Entry(ns, k - 1)
  }

  /** What `WriteData` writes. */
  function Serialised(ns: seq<Nnet>): seq<Item>
  {
    [Token(CountTag), Int(|ns|)] + Entries(ns, |ns|) + [Token(EndTag)]
  }

  /** The networks read while `count` entries remain, from position `pos`,
      appended to `acc`; with the position after the last entry. */
  function ReadEntries(items: seq<Item>, pos: nat, count: int, acc: seq<Nnet>): Result<Loaded>
    decreases if count <= 0 then 0 else count
  {
    if count <= 0 then Ok(Loaded(acc, pos))
    else if pos + 3 > |items| || items[pos] != Token(NetTag) then Err("ParallelComponent: expected <NestedNnet>")
    else if !items[pos + 1].Int? then Err("ParallelComponent: expected the network's index")
    else if !items[pos + 2].Net? then Err("ParallelComponent: expected a nested network")
    else ReadEntries(items, pos + 3, count - 1, acc + [items[pos + 2].nnet])
  }

  /** What `ReadData` reads: the networks and the position just after the
      closing token. A negative count reads no entry. */
  function Deserialise(items: seq<Item>): Result<Loaded>
  {
    if |items| < 2 || items[0] != Token(CountTag) then Err("ParallelComponent: expected <NestedNnetCount>")
    else if !items[1].Int? then Err("ParallelComponent: expected the network count")
    else
      match ReadEntries(items, 2, items[1].n, [])
      case Err(m) => Err(m)
      case Ok(res) =>
        if res.next < |items| && items[res.next] == Token(EndTag) then Ok(Loaded(res.nets, res.next + 1))
        else Err("ParallelComponent: expected </ParallelComponent>")
  }

  /** Reading the entries of networks `k..` of `ns` from where they were
      written gives those networks, whatever follows them. */
  lemma {:induction false} ReadWrittenEntries(ns: seq<Nnet>, k: nat, rest: seq<Item>, acc: seq<Nnet>)
    requires k <= |ns| && acc == ns[..k]
    ensures var items := [Token(CountTag), Int(|ns|)] + Entries(ns, |ns|) + rest;
      ReadEntries(items, 2 + 3 * k, |ns| - k, acc) == Ok(Loaded(ns, 2 + 3 * |ns|))
    decreases |ns| - k
  {
    var items := [Token(CountTag), Int(|ns|)] + Entries(ns, |ns|) + rest;
    if k == |ns| {
      assert acc == ns;
    } else {
      EntriesAt(ns, |ns|, k);
      var p := 2 + 3 * k;
      assert items[p] == Token(NetTag) && items[p + 1] == Int(k + 1) && items[p + 2] == Net(ns[k]);
      assert acc + [ns[k]] == ns[..k + 1];
      ReadWrittenEntries(ns, k + 1, rest, acc + [ns[k]]);
    }
  }

  /** Entry `i` sits at position `3 * i` of the entries. */
  lemma {:induction false} EntriesAt(ns: seq<Nnet>, k: nat, i: nat)
    requires i < k <= |ns|
    ensures Entries(ns, k)[3 * i] == Token(NetTag)
    ensures Entries(ns, k)[3 * i + 1] == Int(i + 1)
    ensures Entries(ns, k)[3 * i + 2] == Net(ns[i])
    decreases k
  {
    if i < k - 1 {
      EntriesAt(ns, k - 1, i);
    }
  }

  /** Reading what was written gives the same networks in the same order,
      and stops just after the closing token, whatever follows. */
  lemma DeserialiseSerialised(ns: seq<Nnet>, rest: seq<Item>)
    ensures Deserialise(Serialised(ns) + rest) == Ok(Loaded(ns, |Serialised(ns)|))
  {
    var items := Serialised(ns) + rest;
    assert items == [Token(CountTag), Int(|ns|)] + Entries(ns, |ns|) + ([Token(EndTag)] + rest);
    ReadWrittenEntries(ns, 0, [Token(EndTag)] + rest, []);
    assert items[2 + 3 * |ns|] == Token(EndTag);
  }

  /** Two streams that differ at most in the integers at index positions
      of the entries from `pos` on. */
  predicate SameButIndices(items: seq<Item>, items': seq<Item>, pos: nat)
  {
    |items| == |items'| &&
    forall q :: pos <= q < |items| ==>
      items[q] == items'[q] || ((q - pos) % 3 == 1 && items[q].Int? && items'[q].Int?)
  }

  /** The reader does not look at the indices: any integers in their
      place read the same networks. */
  lemma {:induction false} ReadEntriesIgnoresIndex(items: seq<Item>, items': seq<Item>, pos: nat, count: int, acc: seq<Nnet>)
    requires SameButIndices(items, items', pos)
    ensures ReadEntries(items, pos, count, acc) == ReadEntries(items', pos, count, acc)
    decreases if count <= 0 then 0 else count
  {
    if count > 0 && pos + 3 <= |items| {
      assert items[pos] == items'[pos] && items[pos + 2] == items'[pos + 2];
      assert items[pos + 1].Int? <==> items'[pos + 1].Int?;
      if items[pos] == Token(NetTag) && items[pos + 1].Int? && items[pos + 2].Net? {
        forall q | pos + 3 <= q < |items|
          ensures items[q] == items'[q] || ((q - (pos + 3)) % 3 == 1 && items[q].Int? && items'[q].Int?)
        {
          assert (q - (pos + 3)) % 3 == (q - pos) % 3;
        }
        ReadEntriesIgnoresIndex(items, items', pos + 3, count - 1, acc + [items[pos + 2].nnet]);
      }
    }
  }
}
