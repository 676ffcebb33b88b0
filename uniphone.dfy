/** The phone-set normaliser of the SBS multilingual recipe: every line of
    a transcript is split into whitespace-separated phone tokens, each token
    is replaced through a fixed table mapping language-specific phones to
    the shared multilingual set (or kept when the table has no entry for
    it), and the results are written out joined by single spaces, one
    output line per input line. */
module Uniphone {
  import TextUtil

  // ---------------------------------------------------------------------
  // Whitespace, as Python's `str.split()` without arguments sees it

  /** The characters Python's `str.isspace` accepts. */
  predicate IsSpace(c: char)
  {
    '\t' <= c <= '\r' || '\U{1C}' <= c <= ' ' || c == '\U{85}' || c == '\U{A0}' ||
    c == '\U{1680}' || '\U{2000}' <= c <= '\U{200A}' || c == '\U{2028}' || c == '\U{2029}' ||
    c == '\U{202F}' || c == '\U{205F}' || c == '\U{3000}'
  }

  /** A token: non-empty and free of whitespace. */
  predicate IsWord(w: string)
  {
    |w| > 0 && forall j :: 0 <= j < |w| ==> !IsSpace(w[j])
  }

  /** Position of the first whitespace character of `s`, or `|s|`. */
  function WordEnd(s: string): (k: nat)
    ensures k <= |s|
    ensures forall j :: 0 <= j < k ==> !IsSpace(s[j])
    ensures k < |s| ==> IsSpace(s[k])
    ensures |s| > 0 && !IsSpace(s[0]) ==> k >= 1
  {
    if |s| == 0 || IsSpace(s[0]) then 0 else 1 + WordEnd(s[1..])
  }

  /** The maximal whitespace-free runs of `s`, left to right: what
      `line.split()` returns. */
  function Words(s: string): (ws: seq<string>)
    decreases |s|
  {
    if |s| == 0 then []
    else if IsSpace(s[0]) then Words(s[1..])
    else
      var k := WordEnd(s);
      [s[..k]] + Words(s[k..])
  }

  /** `' '.join(ws)`. */
  function Join(ws: seq<string>): (s: string)
  {
    if |ws| == 0 then ""
    else if |ws| == 1 then ws[0]
    else ws[0] + " " + Join(ws[1..])
  }

  /** The words of each string of `vs`, one string after the other. */
  function WordsOfAll(vs: seq<string>): (ws: seq<string>)
  {
    if |vs| == 0 then [] else Words(vs[0]) + WordsOfAll(vs[1..])
  }

  /** Words joined by single spaces: the only whitespace is `' '`, never at
      either end and never twice in a row. */
  predicate SingleSpaced(s: string)
  {
    forall i :: 0 <= i < |s| && IsSpace(s[i]) ==>
      s[i] == ' ' && 0 < i < |s| - 1 && !IsSpace(s[i - 1]) && !IsSpace(s[i + 1])
  }

  // ---------------------------------------------------------------------
  // Splitting and joining

  /** `WordEnd` is the first whitespace position. */
  lemma {:induction false} WordEndIsFirstSpace(s: string, k: nat)
    requires k <= |s| && (forall j :: 0 <= j < k ==> !IsSpace(s[j]))
    requires k < |s| ==> IsSpace(s[k])
    ensures WordEnd(s) == k
    decreases k
  {
    if k > 0 {
      WordEndIsFirstSpace(s[1..], k - 1);
    }
  }

  /** Every piece of a split is a token. */
  lemma {:induction false} WordsAreWords(s: string)
    ensures forall i :: 0 <= i < |Words(s)| ==> IsWord(Words(s)[i])
    decreases |s|
  {
    if |s| > 0 {
      if IsSpace(s[0]) {
        WordsAreWords(s[1..]);
      } else {
        WordsAreWords(s[WordEnd(s)..]);
      }
    }
  }

  /** A string splits into no tokens exactly when it is all whitespace. */
  lemma {:induction false} WordsEmptyIffBlank(s: string)
    ensures Words(s) == [] <==> forall j :: 0 <= j < |s| ==> IsSpace(s[j])
    decreases |s|
  {
    if |s| > 0 && IsSpace(s[0]) {
      WordsEmptyIffBlank(s[1..]);
      assert forall j :: 0 < j < |s| ==> s[j] == s[1..][j - 1];
    }
  }

  /** A token splits into itself. */
  lemma WordsOfWord(w: string)
    requires IsWord(w)
    ensures Words(w) == [w]
  {
    WordEndIsFirstSpace(w, |w|);
    assert w[..|w|] == w;
  }

  /** A whitespace character separates: the tokens of `a`, then those of
      `b`. */
  lemma {:induction false} WordsAroundSpace(a: string, c: char, b: string)
    requires IsSpace(c)
    ensures Words(a + [c] + b) == Words(a) + Words(b)
    decreases |a|
  {
    var s := a + [c] + b;
    if |a| == 0 {
      assert s[1..] == b;
    } else if IsSpace(a[0]) {
      assert s[1..] == a[1..] + [c] + b;
      WordsAroundSpace(a[1..], c, b);
    } else {
      var k := WordEnd(a);
      if k < |a| {
        WordEndIsFirstSpace(s, k);
        assert s[..k] == a[..k];
        assert s[k..] == a[k..] + [c] + b;
        WordsAroundSpace(a[k..], c, b);
      } else {
        WordEndIsFirstSpace(s, |a|);
        assert s[..k] == a && a[..k] == a;
        assert s[k..] == [] + [c] + b;
        WordsAroundSpace([], c, b);
        assert a[k..] == [];
      }
    }
  }

  /** Splitting joined strings splits each of them, in order. */
  lemma {:induction false} WordsOfJoin(vs: seq<string>)
    ensures Words(Join(vs)) == WordsOfAll(vs)
  {
    if |vs| == 1 {
      assert WordsOfAll(vs) == Words(vs[0]) + [];
    } else if |vs| > 1 {
      WordsAroundSpace(vs[0], ' ', Join(vs[1..]));
      WordsOfJoin(vs[1..]);
    }
  }

  lemma {:induction false} WordsOfAllWords(ws: seq<string>)
    requires forall i :: 0 <= i < |ws| ==> IsWord(ws[i])
    ensures WordsOfAll(ws) == ws
  {
    if |ws| > 0 {
      WordsOfWord(ws[0]);
      WordsOfAllWords(ws[1..]);
    }
  }

  /** Joining tokens and splitting again gives the tokens back. */
  lemma WordsJoin(ws: seq<string>)
    requires forall i :: 0 <= i < |ws| ==> IsWord(ws[i])
    ensures Words(Join(ws)) == ws
  {
    WordsOfJoin(ws);
    WordsOfAllWords(ws);
  }

  /** `a + " " + b` stays single-spaced when both sides are non-empty and
      single-spaced. */
  lemma SingleSpacedAround(a: string, b: string)
    requires |a| > 0 && |b| > 0 && SingleSpaced(a) && SingleSpaced(b)
    ensures SingleSpaced(a + " " + b)
  {
    var s := a + " " + b;
    assert !IsSpace(a[0]) && !IsSpace(a[|a| - 1]);
    assert !IsSpace(b[0]) && !IsSpace(b[|b| - 1]);
    forall i | 0 <= i < |s| && IsSpace(s[i])
      ensures s[i] == ' ' && 0 < i < |s| - 1 && !IsSpace(s[i - 1]) && !IsSpace(s[i + 1])
    {
      if i < |a| {
        assert s[i] == a[i];
        assert s[i - 1] == a[i - 1] && s[i + 1] == a[i + 1];
      } else if i > |a| {
        var j := i - |a| - 1;
        assert s[i] == b[j];
        assert s[i - 1] == b[j - 1] && s[i + 1] == b[j + 1];
      }
    }
  }

  /** Joining non-empty single-spaced strings gives a single-spaced string,
      empty only when there was nothing to join. */
  lemma {:induction false} JoinSingleSpaced(vs: seq<string>)
    requires forall i :: 0 <= i < |vs| ==> |vs[i]| > 0 && SingleSpaced(vs[i])
    ensures SingleSpaced(Join(vs))
    ensures Join(vs) == "" <==> |vs| == 0
  {
    if |vs| > 1 {
      JoinSingleSpaced(vs[1..]);
      SingleSpacedAround(vs[0], Join(vs[1..]));
    }
  }

  /** A single-spaced string is the join of its own tokens. */
  lemma {:induction false} SingleSpacedJoinWords(s: string)
    requires SingleSpaced(s)
    ensures Join(Words(s)) == s
    decreases |s|
  {
    if |s| > 0 {
      var k := WordEnd(s);
      assert !IsSpace(s[0]);
      if k == |s| {
        WordsOfWord(s);
      } else {
        var a, b := s[..k], s[k + 1..];
        SingleSpacedAfterSpace(s, k);
        SingleSpacedJoinWords(b);
        assert s == a + [s[k]] + b;
        WordsAroundSpace(a, s[k], b);
        WordsOfWord(a);
        assert Words(b) != [] by {
          assert s[k + 1] == b[0];
        }
      }
    }
  }

  /** What follows a space of a single-spaced string is single-spaced and
      starts with a token. */
  lemma SingleSpacedAfterSpace(s: string, k: nat)
    requires SingleSpaced(s) && k < |s| && IsSpace(s[k])
    ensures s[k] == ' ' && |s[k + 1..]| > 0 && !IsSpace(s[k + 1]) && SingleSpaced(s[k + 1..])
  {
    var b := s[k + 1..];
    forall i | 0 <= i < |b| && IsSpace(b[i])
      ensures b[i] == ' ' && 0 < i < |b| - 1 && !IsSpace(b[i - 1]) && !IsSpace(b[i + 1])
    {
      assert b[i] == s[k + 1 + i];
    }
  }

  /** Collapsing whitespace changes a string exactly when it is not
      already single-spaced. */
  lemma SingleSpacedIff(s: string)
    ensures SingleSpaced(s) <==> Join(Words(s)) == s
  {
    if SingleSpaced(s) {
      SingleSpacedJoinWords(s);
    } else {
      WordsAreWords(s);
      WordsAreSingleSpaced(Words(s));
    }
  }

  lemma WordsAreSingleSpaced(ws: seq<string>)
    requires forall i :: 0 <= i < |ws| ==> IsWord(ws[i])
    ensures SingleSpaced(Join(ws))
  {
    JoinSingleSpaced(ws);
  }

  // ---------------------------------------------------------------------
  // The phone table

  /** The table's entries in the order they are written, duplicates
      included, in blocks of at most twelve. */
  const Block0: seq<(string, string)> := [
    ("ä", "a"),
    ("aːː", "aː"),
    ("aɪ̯", "aɪ"),
    ("au", "aʊ"),
    ("ɑː", "aː"),
    ("ɑr", "ɑɻ"),
    ("ɑʊ̯", "aʊ"),
    ("ɒː", "ɒ"),
    ("b̤", "b ɦ"),
    ("ɓ", "b"),
    ("ç", "ɕ"),
    ("cː", "c")
  ]

  const Block1: seq<(string, string)> := [
    ("d̪", "d"),
    ("d̪̤", "d ɦ"),
    ("dz", "d z"),
    ("dzː", "dː z"),
    ("dˤ", "d ʕ"),
    ("ðˤ", "ð ʕ"),
    ("dˤː", "dː ʕ"),
    ("ɖ", "d ɻ"),
    ("ɗ", "ɟ"),
    ("ɗʒ", "ɟʝ"),
    ("eɪ̯", "eɪ"),
    ("ɛː", "ɛ")
  ]

  const Block2: seq<(string, string)> := [
    ("ɛi", "eɪ"),
    ("ɤ", "ə"),
    ("gː", "ɡ"),
    ("ɡʰ", "ɡ ɦ"),
    ("ɠ", "ɡ"),
    ("ħ", "hː"),
    ("ħː", "hː"),
    ("i̯", "i"),
    ("iːː", "iː"),
    ("ɨ", "ɪ"),
    ("juː", "j uː"),
    ("ɟː", "ɟ")
  ]

  const Block3: seq<(string, string)> := [
    ("ɟ̤ʝ", "ɟʝ ɦ"),
    ("lːː", "lː"),
    ("mb", "m b"),
    ("ɱ", "m"),
    ("ɱv", "m v"),
    ("nd", "n d"),
    ("n̠d̠ʒ", "n dʒ"),
    ("nz", "n z"),
    ("ɲː", "ɲ"),
    ("ŋɡ", "ŋ ɡ"),
    ("oː", "oʊ"),
    ("øː", "œ")
  ]

  const Block4: seq<(string, string)> := [
    ("œy", "œ y"),
    ("oʊ̯", "oʊ"),
    ("pː", "p"),
    ("qː", "q"),
    ("ɽ", "r"),
    ("ɽʰ", "r ɦ"),
    ("sˤ", "s ʕ"),
    ("sˤː", "sː ʕ"),
    ("ʂ", "ʃ"),
    ("t̪", "t"),
    ("tɕ", "ɟʝ"),
    ("tɕʰ", "c ɕ")
  ]

  const Block5: seq<(string, string)> := [
    ("t̪ʰ", "tʰ"),
    ("tsː", "ts"),
    ("tsʰ", "ts"),
    ("tʃː", "tʃ"),
    ("tˤ", "t ʕ"),
    ("tˤː", "tː ʕ"),
    ("ʈ", "t ɻ"),
    ("ʈʰ", "tʰ ɻ"),
    ("ʈʂ", "tʃ"),
    ("ʈʂʰ", "tʃʰ"),
    ("u̯", "u"),
    ("ɥ", "y")
  ]

  const Block6: seq<(string, string)> := [
    ("vː", "v"),
    ("wː", "w"),
    ("wːː", "w"),
    ("xː", "x"),
    ("y̯", "y"),
    ("yː", "y"),
    ("zˤ", "z ʕ"),
    ("ʒː", "ʒ"),
    ("ʕː", "ʕ"),
    ("θː", "θ"),
    ("ɔː", "ɔ"),
    ("uɪ", "u ɪ")
  ]

  const Block7: seq<(string, string)> := [
    ("ʷa", "w a"),
    ("t'", "tʰ"),
    ("p'", "pʰ"),
    ("tʃ'", "tʃʰ"),
    ("ts'", "ts"),
    ("à̤", "a"),
    ("à̤ː", "aː"),
    ("e", "eː"),
    ("è̤", "eː"),
    ("è̤ː", "eː"),
    ("ɛ̤̆", "ɛ"),
    ("ĭ̤", "i")
  ]

  const Block8: seq<(string, string)> := [
    ("ĭ̤ː", "iː"),
    ("ò̤", "o"),
    ("ɔ̤̀", "ɔ"),
    ("d̪", "d"),
    ("n̪", "n"),
    ("t̪", "t")
  ]

  const Entries: seq<(string, string)> :=
    Block0 + Block1 + Block2 + Block3 + Block4 + Block5 + Block6 + Block7 + Block8

  /** A dictionary built from its entries in order: a key given twice keeps
      its later value, as in a Python dict display. */
  function Table(entries: seq<(string, string)>): map<string, string>
  {
    if |entries| == 0 then map[]
    else
      var e := entries[|entries| - 1];
      Table(entries[..|entries| - 1])[e.0 := e.1]
  }

  /** `uniphone_map`. */
  const UniphoneMap: map<string, string> := Table(Entries)

  /** Every entry's key is a key of the table. */
  lemma TableHasKey(es: seq<(string, string)>, i: nat)
    requires i < |es|
    ensures es[i].0 in Table(es)
    decreases |es|
  {
    if i < |es| - 1 {
      TableHasKey(es[..|es| - 1], i);
    }
  }

  /** A table maps each of its keys to the value of that key's last
      entry. */
  lemma {:induction false} TableLastEntry(es: seq<(string, string)>, k: string)
    requires k in Table(es)
    ensures exists i :: 0 <= i < |es| && es[i].0 == k && Table(es)[k] == es[i].1 &&
                        (forall j :: i < j < |es| ==> es[j].0 != k)
    decreases |es|
  {
    var n := |es| - 1;
    var front := es[..n];
    assert Table(es) == Table(front)[es[n].0 := es[n].1];
    if es[n].0 != k {
      assert k in Table(front) && Table(es)[k] == Table(front)[k];
      TableLastEntry(front, k);
      var i :| 0 <= i < |front| && front[i].0 == k && Table(front)[k] == front[i].1 &&
               (forall j :: i < j < |front| ==> front[j].0 != k);
      assert es[i] == front[i];
    } else {
      assert Table(es)[k] == es[n].1;
    }
  }

  /** The entry for a key that no later entry overrides gives the table's
      value for that key. */
  lemma LastEntryWins(es: seq<(string, string)>, i: nat)
    requires i < |es| && forall j :: i < j < |es| ==> es[j].0 != es[i].0
    ensures es[i].0 in Table(es) && Table(es)[es[i].0] == es[i].1
  {
    TableHasKey(es, i);
    TableLastEntry(es, es[i].0);
  }

  /** Phones separated by single ASCII spaces, with none at either end:
      the form of every replacement in the table. */
  predicate PhoneList(s: string)
  {
    |s| > 0 && s[0] != ' ' && s[|s| - 1] != ' ' &&
    (forall c | c in s :: c == ' ' || !IsSpace(c)) &&
    forall i | 0 <= i < |s| - 1 :: s[i] == ' ' ==> s[i + 1] != ' '
  }

  lemma PhoneListSingleSpaced(s: string)
    requires PhoneList(s)
    ensures SingleSpaced(s)
  {
    forall i | 0 <= i < |s| && IsSpace(s[i])
      ensures s[i] == ' ' && 0 < i < |s| - 1 && !IsSpace(s[i - 1]) && !IsSpace(s[i + 1])
    {
      assert s[i] in s;
      assert s[i - 1] in s && s[i + 1] in s;
    }
  }

  lemma Block0PhoneLists()
    ensures forall i | 0 <= i < |Block0| :: PhoneList(Block0[i].1)
  {
  }

  lemma Block1PhoneLists()
    ensures forall i | 0 <= i < |Block1| :: PhoneList(Block1[i].1)
  {
  }

  lemma Block2PhoneLists()
    ensures forall i | 0 <= i < |Block2| :: PhoneList(Block2[i].1)
  {
  }

  lemma Block3PhoneLists()
    ensures forall i | 0 <= i < |Block3| :: PhoneList(Block3[i].1)
  {
  }

  lemma Block4PhoneLists()
    ensures forall i | 0 <= i < |Block4| :: PhoneList(Block4[i].1)
  {
  }

  lemma Block5PhoneLists()
    ensures forall i | 0 <= i < |Block5| :: PhoneList(Block5[i].1)
  {
  }

  lemma Block6PhoneLists()
    ensures forall i | 0 <= i < |Block6| :: PhoneList(Block6[i].1)
  {
  }

  lemma Block7PhoneLists()
    ensures forall i | 0 <= i < |Block7| :: PhoneList(Block7[i].1)
  {
  }

  lemma Block8PhoneLists()
    ensures forall i | 0 <= i < |Block8| :: PhoneList(Block8[i].1)
  {
  }

  /** Every replacement in the table is a list of phones. */
  lemma EntryValuesArePhoneLists()
    ensures forall i | 0 <= i < |Entries| :: PhoneList(Entries[i].1)
  {
    Block0PhoneLists();
    Block1PhoneLists();
    Block2PhoneLists();
    Block3PhoneLists();
    Block4PhoneLists();
    Block5PhoneLists();
    Block6PhoneLists();
    Block7PhoneLists();
    Block8PhoneLists();
  }

  /** Every replacement is non-empty and single-spaced. */
  lemma MapValuesSingleSpaced()
    ensures forall k | k in UniphoneMap :: |UniphoneMap[k]| > 0 && SingleSpaced(UniphoneMap[k])
  {
    forall k | k in UniphoneMap
      ensures |UniphoneMap[k]| > 0 && SingleSpaced(UniphoneMap[k])
    {
      TableLastEntry(Entries, k);
      EntryValuesArePhoneLists();
      PhoneListSingleSpaced(UniphoneMap[k]);
    }
  }

  /** `uniphone_map.get(e, e)`. */
  function MapToken(t: string): string
  {
    if t in UniphoneMap then UniphoneMap[t] else t
  }

  /** Each token looked up once, in order. */
  function MapTokens(ts: seq<string>): (vs: seq<string>)
    ensures |vs| == |ts|
  {
    seq(|ts|, i requires 0 <= i < |ts| => MapToken(ts[i]))
  }

  /** One line of output, without its line break. */
  function Normalise(line: string): string
  {
    Join(MapTokens(Words(line)))
  }

  /** A token becomes one or more phones joined by single spaces. */
  lemma MapTokenPhones(t: string)
    requires IsWord(t)
    ensures |MapToken(t)| > 0 && SingleSpaced(MapToken(t)) && |Words(MapToken(t))| >= 1
  {
    var v := MapToken(t);
    if t in UniphoneMap {
      MapValuesSingleSpaced();
    }
    assert !IsSpace(v[0]);
  }

  lemma {:induction false} WordsOfAllCount(vs: seq<string>)
    requires forall i :: 0 <= i < |vs| ==> |Words(vs[i])| >= 1
    ensures |WordsOfAll(vs)| >= |vs|
  {
    if |vs| > 0 {
      WordsOfAllCount(vs[1..]);
    }
  }

  /** The output's tokens are the replacements of the input's tokens, each
      looked up once and split at its spaces, in input order. */
  lemma NormaliseWords(line: string)
    ensures Words(Normalise(line)) == WordsOfAll(MapTokens(Words(line)))
  {
    WordsOfJoin(MapTokens(Words(line)));
  }

  /** The output is single-spaced, and empty exactly for a blank line. */
  lemma NormaliseSingleSpaced(line: string)
    ensures SingleSpaced(Normalise(line))
    ensures Normalise(line) == "" <==> forall j :: 0 <= j < |line| ==> IsSpace(line[j])
  {
    var ts := Words(line);
    var vs := MapTokens(ts);
    WordsAreWords(line);
    forall i | 0 <= i < |vs|
      ensures |vs[i]| > 0 && SingleSpaced(vs[i])
    {
      MapTokenPhones(ts[i]);
    }
    JoinSingleSpaced(vs);
    WordsEmptyIffBlank(line);
  }

  /** No token is lost: the output has at least as many tokens as the
      input. */
  lemma NormaliseWordCount(line: string)
    ensures |Words(Normalise(line))| >= |Words(line)|
  {
    var ts := Words(line);
    var vs := MapTokens(ts);
    WordsAreWords(line);
    forall i | 0 <= i < |vs|
      ensures |Words(vs[i])| >= 1
    {
      MapTokenPhones(ts[i]);
    }
    WordsOfAllCount(vs);
    NormaliseWords(line);
  }

  /** A line none of whose tokens is in the table keeps its tokens: only
      its whitespace is collapsed. */
  lemma UnmappedTokensKept(line: string)
    requires forall i :: 0 <= i < |Words(line)| ==> Words(line)[i] !in UniphoneMap
    ensures Normalise(line) == Join(Words(line))
    ensures Words(Normalise(line)) == Words(line)
  {
    var ts := Words(line);
    assert MapTokens(ts) == ts;
    WordsAreWords(line);
    WordsJoin(ts);
  }

  /** The line break a line ends with is whitespace like any other. */
  lemma LineBreakIgnored(line: string)
    ensures Normalise(line + "\n") == Normalise(line)
  {
    assert line + "\n" == line + ['\n'] + "";
    WordsAroundSpace(line, '\n', "");
    assert Words(line + "\n") == Words(line);
  }

  /** The key written twice in the table, on both of its lines, carries the
      value the table gives it, so which of the two entries is kept makes no
      difference. */
  lemma DuplicateKeysAgree()
    ensures Entries[12].0 == Entries[99].0 && Entries[12].1 == Entries[99].1
    ensures Entries[57].0 == Entries[101].0 && Entries[57].1 == Entries[101].1
    ensures Entries[99].0 in UniphoneMap && UniphoneMap[Entries[99].0] == Entries[99].1
    ensures Entries[101].0 in UniphoneMap && UniphoneMap[Entries[101].0] == Entries[101].1
  {
    LastEntryWins(Entries, 99);
    LastEntryWins(Entries, 101);
  }

  /** A replacement is not looked up again, and the line's whitespace
      collapses: `e` becomes `eː` although the table also has entries
      whose values start with `e`. */
  lemma MappedOnce()
    ensures Normalise("e") == "eː"
  {
    assert Entries[91] == ("e", "eː");
    LastEntryWins(Entries, 91);
    WordsOfWord("e");
    assert MapTokens(["e"]) == ["eː"];
  }

  // ---------------------------------------------------------------------
  // The whole input

  /** The lines a Python text stream yields: each keeps its line break,
      the last has none when the text does not end with one. */
  function Lines(text: string): seq<string>
    decreases |text|
  {
    if |text| == 0 then []
    else
      var k := TextUtil.IndexOf(text, '\n');
      if k == |text| then [text] else [text[..k + 1]] + Lines(text[k + 1..])
  }

  function Concat(ls: seq<string>): string
  {
    if |ls| == 0 then "" else ls[0] + Concat(ls[1..])
  }

  /** What the script prints for these lines: each normalised line followed
      by a line break. */
  function Printed(ls: seq<string>): string
  {
    if |ls| == 0 then "" else Normalise(ls[0]) + "\n" + Printed(ls[1..])
  }

  /** The script's output for the whole of its standard input. */
  function Filter(text: string): string
  {
    Printed(Lines(text))
  }

  /** The lines put back together give the text. */
  lemma {:induction false} ConcatLines(text: string)
    ensures Concat(Lines(text)) == text
    decreases |text|
  {
    if |text| > 0 {
      var k := TextUtil.IndexOf(text, '\n');
      if k == |text| {
        assert Concat([text]) == text + Concat([]);
      } else {
        ConcatLines(text[k + 1..]);
        ConcatFirstLine(text, k);
      }
    }
  }

  /** The first line followed by the rest put back together gives the
      text. */
  lemma ConcatFirstLine(text: string, k: nat)
    requires k == TextUtil.IndexOf(text, '\n') && k < |text|
    requires Concat(Lines(text[k + 1..])) == text[k + 1..]
    ensures Concat(Lines(text)) == text
  {
    var first, rest := text[..k + 1], text[k + 1..];
    LinesUnfold(text, k);
    ConcatCons(first, Lines(rest));
    assert text == first + rest;
  }

  /** A text whose first line break is at `k` starts with the line up to
      and including it. */
  lemma LinesUnfold(text: string, k: nat)
    requires k == TextUtil.IndexOf(text, '\n') && k < |text|
    ensures Lines(text) == [text[..k + 1]] + Lines(text[k + 1..])
  {
  }

  lemma ConcatCons(a: string, ls: seq<string>)
    ensures Concat([a] + ls) == a + Concat(ls)
  {
    assert ([a] + ls)[1..] == ls;
  }

  /** A break-free string followed by a line break is the first line. */
  lemma LinesFirst(a: string, rest: string)
    requires forall j :: 0 <= j < |a| ==> a[j] != '\n'
    ensures Lines(a + "\n" + rest) == [a + "\n"] + Lines(rest)
  {
    var s := a + "\n" + rest;
    TextUtil.IndexOfFirst(s, '\n', |a|);
    assert s[..|a| + 1] == a + "\n";
    assert s[|a| + 1..] == rest;
  }

  /** A normalised line holds no line break. */
  lemma NormaliseHasNoBreak(line: string)
    ensures forall j :: 0 <= j < |Normalise(line)| ==> Normalise(line)[j] != '\n'
  {
    NormaliseSingleSpaced(line);
  }

  lemma {:induction false} LinesOfPrinted(ls: seq<string>)
    ensures |Lines(Printed(ls))| == |ls|
    ensures forall i :: 0 <= i < |ls| ==> Lines(Printed(ls))[i] == Normalise(ls[i]) + "\n"
  {
    if |ls| > 0 {
      var head := Normalise(ls[0]) + "\n";
      NormaliseHasNoBreak(ls[0]);
      LinesFirst(Normalise(ls[0]), Printed(ls[1..]));
      assert Lines(Printed(ls)) == [head] + Lines(Printed(ls[1..]));
      LinesOfPrinted(ls[1..]);
      forall i | 1 <= i < |ls|
        ensures Lines(Printed(ls))[i] == Normalise(ls[i]) + "\n"
      {
        assert ls[1..][i - 1] == ls[i];
      }
    }
  }

  /** One output line per input line, in order: the `i`-th line printed is
      the `i`-th line read, normalised. */
  lemma OneLinePerLine(text: string)
    ensures |Lines(Filter(text))| == |Lines(text)|
    ensures forall i :: 0 <= i < |Lines(text)| ==> Lines(Filter(text))[i] == Normalise(Lines(text)[i]) + "\n"
  {
    LinesOfPrinted(Lines(text));
  }
}
