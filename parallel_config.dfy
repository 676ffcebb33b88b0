/** The configuration that `ParallelComponent::InitData` reads, as a
    sequence of whitespace-separated tokens: sections
    `<NestedNnetFilename> f1 f2 ... </NestedNnetFilename>` and
    `<NestedNnetProto> p1 p2 ... </NestedNnetProto>`, in any order and any
    number; the names of sections of the same kind are collected in order.
    Exactly one of the two lists may be non-empty. */
module ParallelConfig {
  import opened Wrappers

  const FileOpen: string := "<NestedNnetFilename>"
  const FileClose: string := "</NestedNnetFilename>"
  const ProtoOpen: string := "<NestedNnetProto>"
  const ProtoClose: string := "</NestedNnetProto>"

  /** The nested-network file names and prototype names found. */
  datatype NestedLists = NestedLists(files: seq<string>, protos: seq<string>)

  const NoLists := NestedLists([], [])

  /** The names of one section and the position just after its closing
      token. */
  datatype Span = Span(names: seq<string>, next: nat)

  /** The names from position `k` up to the closing token `close`, and the
      position just after it; running out of tokens before `close` is an
      error, since reading a token past the end of the stream fails. */
  function ListUntil(ts: seq<string>, k: nat, close: string): (r: Result<Span>)
    ensures r.Ok? ==> k < r.value.next <= |ts|
    decreases |ts| - k
  {
    if k >= |ts| then Err("ParallelComponent: end of config inside a list of nested networks")
    else if ts[k] == close then Ok(Span([], k + 1))
    else
      match ListUntil(ts, k + 1, close)
      case Ok(res) => Ok(Span([ts[k]] + res.names, res.next))
      case Err(m) => Err(m)
  }

  /** The sections from position `k` on, their names added to `acc`. */
  function SectionsFrom(ts: seq<string>, k: nat, acc: NestedLists): Result<NestedLists>
    decreases |ts| - k
  {
    if k >= |ts| then Ok(acc)
    else if ts[k] == FileOpen then
      match ListUntil(ts, k + 1, FileClose)
      case Ok(res) => SectionsFrom(ts, res.next, acc.(files := acc.files + res.names))
      case Err(m) => Err(m)
    else if ts[k] == ProtoOpen then
      match ListUntil(ts, k + 1, ProtoClose)
      case Ok(res) => SectionsFrom(ts, res.next, acc.(protos := acc.protos + res.names))
      case Err(m) => Err(m)
    else Err("ParallelComponent: unknown token " + ts[k] + ", typo in config?")
  }

  /** Exactly one of the two lists is non-empty. */
  predicate OneKind(l: NestedLists)
  {
    (|l.protos| > 0) != (|l.files| > 0)
  }

  /** The lists of the whole configuration, refused unless exactly one of
      them is non-empty. */
  function ParseConfig(ts: seq<string>): (r: Result<NestedLists>)
    ensures r.Ok? ==> OneKind(r.value)
  {
    match SectionsFrom(ts, 0, NoLists)
    case Ok(l) => if OneKind(l) then Ok(l) else Err("ParallelComponent: exactly one of the file and prototype lists must be given")
    case Err(m) => Err(m)
  }

  /** The inner loop of `InitData`: names up to the closing token. */
  method ReadList(ts: seq<string>, k0: nat, close: string) returns (r: Result<Span>)
    ensures r == ListUntil(ts, k0, close)
  {
    var names: seq<string> := [];
    var k := k0;
    assert Prefixed([], ListUntil(ts, k, close)) == ListUntil(ts, k, close) by {
      if ListUntil(ts, k, close).Ok? {
        assert [] + ListUntil(ts, k, close).value.names == ListUntil(ts, k, close).value.names;
      }
    }
    while true
      invariant k0 <= k
      invariant ListUntil(ts, k0, close) == Prefixed(names, ListUntil(ts, k, close))
      decreases |ts| - k
    {
      if k >= |ts| {
        return Err("ParallelComponent: end of config inside a list of nested networks");
      }
      var tok := ts[k];
      k := k + 1;
      if tok == close {
        assert names + [] == names;
        break;
      }
      PrefixedTwice(names, [tok], ListUntil(ts, k, close));
      names := names + [tok];
    }
    r := Ok(Span(names, k));
  }

  /** `r` with `names` put in front of its names. */
  function Prefixed(names: seq<string>, r: Result<Span>): Result<Span>
  {
    match r
    case Ok(res) => Ok(Span(names + res.names, res.next))
    case Err(m) => Err(m)
  }

  lemma PrefixedTwice(a: seq<string>, b: seq<string>, r: Result<Span>)
    ensures Prefixed(a, Prefixed(b, r)) == Prefixed(a + b, r)
  {
    if r.Ok? {
      assert a + (b + r.value.names) == (a + b) + r.value.names;
    }
  }

  /** The token loop of `InitData` and its final xor check. */
  method ReadConfig(ts: seq<string>) returns (r: Result<NestedLists>)
    ensures r == ParseConfig(ts)
  {
    var lists := NoLists;
    var k := 0;
    while k < |ts|
      invariant k <= |ts|
      invariant SectionsFrom(ts, 0, NoLists) == SectionsFrom(ts, k, lists)
      decreases |ts| - k
    {
      var tok := ts[k];
      if tok == FileOpen {
        var sec := ReadList(ts, k + 1, FileClose);
        if sec.Err? {
          return Err(sec.msg);
        }
        lists := lists.(files := lists.files + sec.value.names);
        k := sec.value.next;
      } else if tok == ProtoOpen {
        var sec := ReadList(ts, k + 1, ProtoClose);
        if sec.Err? {
          return Err(sec.msg);
        }
        lists := lists.(protos := lists.protos + sec.value.names);
        k := sec.value.next;
      } else {
        return Err("ParallelComponent: unknown token " + tok + ", typo in config?");
      }
    }
    if !OneKind(lists) {
      return Err("ParallelComponent: exactly one of the file and prototype lists must be given");
    }
    r := Ok(lists);
  }

  // ---------------------------------------------------------------------
  // Writing a configuration and reading it back

  /** One section: the opening token, the names, the closing token. */
  function Section(open: string, names: seq<string>, close: string): seq<string>
  {
    [open] + names + [close]
  }

  /** A configuration with one section for the non-empty list. */
  function RenderConfig(l: NestedLists): seq<string>
  {
    (if |l.files| > 0 then Section(FileOpen, l.files, FileClose) else []) +
    (if |l.protos| > 0 then Section(ProtoOpen, l.protos, ProtoClose) else [])
  }

  /** No name is the closing token of its list. */
  predicate NamesOk(l: NestedLists)
  {
    (forall k :: 0 <= k < |l.files| ==> l.files[k] != FileClose) &&
    (forall k :: 0 <= k < |l.protos| ==> l.protos[k] != ProtoClose)
  }

  /** A list of names followed by the closing token reads back as itself. */
  lemma {:induction false} ListUntilNames(pre: seq<string>, names: seq<string>, close: string, post: seq<string>)
    requires forall k :: 0 <= k < |names| ==> names[k] != close
    ensures ListUntil(pre + names + [close] + post, |pre|, close) == Ok(Span(names, |pre| + |names| + 1))
    decreases |names|
  {
    var ts := pre + names + [close] + post;
    if |names| == 0 {
      assert ts[|pre|] == close;
    } else {
      assert ts[|pre|] == names[0];
      assert ts == (pre + [names[0]]) + names[1..] + [close] + post;
      ListUntilNames(pre + [names[0]], names[1..], close, post);
      assert [names[0]] + names[1..] == names;
    }
  }

  /** The two opening tokens differ. */
  lemma OpenTokensDiffer()
    ensures FileOpen != ProtoOpen
  {
    assert |FileOpen| == 20 && |ProtoOpen| == 17;
  }

  /** A configuration made of one section of names reads back as those
      names. */
  lemma OneSection(open: string, names: seq<string>, close: string)
    requires forall k :: 0 <= k < |names| ==> names[k] != close
    ensures ListUntil(Section(open, names, close), 1, close) == Ok(Span(names, |names| + 2))
  {
    assert Section(open, names, close) == [open] + names + [close] + [];
    ListUntilNames([open], names, close, []);
  }

  /** Writing the non-empty list as a configuration and parsing it gives
      the lists back. */
  lemma ParseRenderConfig(l: NestedLists)
    requires OneKind(l) && NamesOk(l)
    ensures ParseConfig(RenderConfig(l)) == Ok(l)
  {
    OpenTokensDiffer();
    if |l.files| > 0 {
      var ts := Section(FileOpen, l.files, FileClose);
      assert RenderConfig(l) == ts;
      OneSection(FileOpen, l.files, FileClose);
      assert [] + l.files == l.files;
      assert SectionsFrom(ts, 0, NoLists) == SectionsFrom(ts, |ts|, NestedLists(l.files, []));
    } else {
      var ts := Section(ProtoOpen, l.protos, ProtoClose);
      assert RenderConfig(l) == ts;
      OneSection(ProtoOpen, l.protos, ProtoClose);
      assert [] + l.protos == l.protos;
      assert SectionsFrom(ts, 0, NoLists) == SectionsFrom(ts, |ts|, NestedLists([], l.protos));
    }
  }

  /** Sections of the same kind add up: two prototype sections give one
      list of their names in order. */
  lemma TwoProtoSections(a: seq<string>, b: seq<string>)
    requires forall k :: 0 <= k < |a| ==> a[k] != ProtoClose
    requires forall k :: 0 <= k < |b| ==> b[k] != ProtoClose
    requires |a| + |b| > 0
    ensures ParseConfig(Section(ProtoOpen, a, ProtoClose) + Section(ProtoOpen, b, ProtoClose)) ==
      Ok(NestedLists([], a + b))
  {
    OpenTokensDiffer();
    var s1, s2 := Section(ProtoOpen, a, ProtoClose), Section(ProtoOpen, b, ProtoClose);
    var ts := s1 + s2;
    assert ts == [ProtoOpen] + a + [ProtoClose] + s2;
    ListUntilNames([ProtoOpen], a, ProtoClose, s2);
    assert ts[|s1|] == ProtoOpen;
    assert ts == (s1 + [ProtoOpen]) + b + [ProtoClose] + [];
    ListUntilNames(s1 + [ProtoOpen], b, ProtoClose, []);
    assert [] + a == a;
    assert SectionsFrom(ts, 0, NoLists) == SectionsFrom(ts, |s1|, NestedLists([], a));
    assert SectionsFrom(ts, |s1|, NestedLists([], a)) == SectionsFrom(ts, |ts|, NestedLists([], a + b));
  }

  /** A configuration whose first token opens no section is refused. */
  lemma UnknownTokenRefused(ts: seq<string>)
    requires |ts| > 0 && ts[0] != FileOpen && ts[0] != ProtoOpen
    ensures ParseConfig(ts).Err?
  {
  }

  /** Both kinds of section at once are refused, as are none at all. */
  lemma BothKindsRefused(f: seq<string>, p: seq<string>)
    requires forall k :: 0 <= k < |f| ==> f[k] != FileClose
    requires forall k :: 0 <= k < |p| ==> p[k] != ProtoClose
    requires (|f| > 0) == (|p| > 0)
    ensures ParseConfig(Section(FileOpen, f, FileClose) + Section(ProtoOpen, p, ProtoClose)).Err?
  {
    OpenTokensDiffer();
    var s1, s2 := Section(FileOpen, f, FileClose), Section(ProtoOpen, p, ProtoClose);
    var ts := s1 + s2;
    assert ts == [FileOpen] + f + [FileClose] + s2;
    ListUntilNames([FileOpen], f, FileClose, s2);
    assert ts[|s1|] == ProtoOpen;
    assert ts == (s1 + [ProtoOpen]) + p + [ProtoClose] + [];
    ListUntilNames(s1 + [ProtoOpen], p, ProtoClose, []);
    assert [] + f == f && [] + p == p;
    assert SectionsFrom(ts, 0, NoLists) == SectionsFrom(ts, |s1|, NestedLists(f, []));
    assert SectionsFrom(ts, |s1|, NestedLists(f, [])) == SectionsFrom(ts, |ts|, NestedLists(f, p));
  }
}
