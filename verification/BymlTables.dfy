/** The string tables of a document: every name and text once, in order, found by position. */
module BymlTables {
  import opened Documents
  import opened BymlFormat

  const COUNTS := 0x100_0000

  /** Some bytes are at an offset. */
  ghost predicate Holds(data: Bytes, at: nat, bytes: Bytes) {
    at + |bytes| <= |data| && data[at..at + |bytes|] == bytes
  }

  lemma HoldsSplit(data: Bytes, at: nat, a: Bytes, b: Bytes)
    requires Holds(data, at, a + b)
    ensures Holds(data, at, a) && Holds(data, at + |a|, b)
  {
    assert data[at..at + |a|] == (a + b)[..|a|];
    assert data[at + |a|..at + |a| + |b|] == (a + b)[|a|..];
  }

  lemma NumberHeld(data: Bytes, big: bool, keys: seq<string>, strings: seq<string>, at: nat, v: nat, n: nat)
    requires Holds(data, at, Number(big, v, n)) && v < Power(n)
    ensures Reader(data, big, keys, strings).Number(at, n) == Some(v)
  {
    NumberBack(big, v, n);
  }

  lemma CountHeld(reader: Reader, at: nat, type_: Byte, count: nat)
    requires Holds(reader.data, at, Header(reader.big, type_, count)) && count < COUNTS
    ensures reader.Count(at, type_) == Some(count)
  {
    Powers();
    var v := if reader.big then type_ * 0x100_0000 + count else count * 256 + type_;
    NumberHeld(reader.data, reader.big, reader.keys, reader.strings, at, v, 4);
  }

  /** A list holds each element of a set once. */
  ghost predicate Lists<T(!new)>(list: seq<T>, elements: set<T>) {
    |list| == |elements| && forall x :: x in list <==> x in elements
  }

  // ---------- writing a table ----------

  function BytesOf(text: string): (bytes: Bytes)
    ensures |bytes| == |text|
  {
    seq(|text|, i requires 0 <= i < |text| => text[i] as int % 256)
  }

  predicate Plain(text: string) { forall i :: 0 <= i < |text| ==> text[i] as int < 256 }

  /** Where each text starts, counted from the table, and where the last one ends. */
  function Starts(big: bool, texts: seq<string>, from: nat): (bytes: Bytes)
    ensures |bytes| == 4 * (|texts| + 1)
  {
    Number(big, from, 4) + if texts == [] then [] else Starts(big, texts[1..], from + |texts[0]| + 1)
  }

  function Terminated(texts: seq<string>): Bytes {
    if texts == [] then [] else BytesOf(texts[0]) + [0] + Terminated(texts[1..])
  }

  function Table(big: bool, texts: seq<string>): Bytes {
    var data := Terminated(texts);
    Header(big, STRING_TABLE, |texts|) + Starts(big, texts, 4 + 4 * (|texts| + 1)) + data + Zeros(Padding(|data|))
  }

  lemma TableSize(big: bool, texts: seq<string>)
    ensures |Table(big, texts)| % 4 == 0
  {
    hide Number, Terminated, Starts, Header;
    var n := |Terminated(texts)|;
    assert |Table(big, texts)| == 4 + 4 * (|texts| + 1) + n + Padding(n);
  }

  /** Appends a table; an empty one takes no bytes and has offset zero. */
  method WriteTable(out: Bytes, big: bool, texts: seq<string>) returns (more: Bytes, at: nat)
    requires |out| % 4 == 0
    ensures texts == [] ==> more == out && at == 0
    ensures texts != [] ==> more == out + Table(big, texts) && at == |out|
  {
    hide Number, Starts, Terminated, Header, Padding;
    if texts == [] {
      return out, 0;
    }
    at := |out|;
    var starts := PushStarts(big, texts);
    var data := PushTexts(texts);
    var header := Header(big, STRING_TABLE, |texts|);
    more := out + header + starts + data;
    SamePadding(|out|, 1 + |texts| + 1, |data|);
    var zeros := Zeros(Padding(|more|));
    FourParts(out, header, starts, data, zeros);
    more := more + zeros;
  }

  lemma FourParts(out: Bytes, a: Bytes, b: Bytes, c: Bytes, d: Bytes)
    ensures out + a + b + c + d == out + (a + b + c + d)
  {
  }

  lemma SamePadding(before: nat, words: nat, n: nat)
    requires before % 4 == 0
    ensures Padding(before + 4 * words + n) == Padding(n)
  {
    var q := before / 4 + words;
    assert before + 4 * words + n == 4 * q + n;
    Shifted(q, n);
  }

  lemma Shifted(q: nat, n: nat)
    ensures (4 * q + n) % 4 == n % 4
  {
  }

  method PushStarts(big: bool, texts: seq<string>) returns (out: Bytes)
    ensures out == Starts(big, texts, 4 + 4 * (|texts| + 1))
  {
    hide Number, Starts, After;
    var offset: nat := 4 + (|texts| + 1) * 4;
    out := Number(big, offset, 4);
    ghost var all := Starts(big, texts, offset);
    FirstStart(big, texts, offset);
    var i := 0;
    while i < |texts|
      invariant 0 <= i <= |texts|
      invariant out + After(big, texts[i..], offset) == all
    {
      assert texts[i..][1..] == texts[i + 1..];
      var next: nat := offset + |texts[i]| + 1;
      AfterOne(big, texts[i..], offset);
      Regroup(out, Number(big, next, 4), After(big, texts[i + 1..], next));
      out := out + Number(big, next, 4);
      offset := next;
      i := i + 1;
    }
    LastStart(big, texts[i..], offset);
  }

  lemma FirstStart(big: bool, texts: seq<string>, from: nat)
    ensures Starts(big, texts, from) == Number(big, from, 4) + After(big, texts[0..], from)
  {
    hide Number;
    assert texts[0..] == texts;
  }

  lemma LastStart(big: bool, texts: seq<string>, from: nat)
    requires texts == []
    ensures After(big, texts, from) == []
  {
  }

  /** The starts of the texts after the first. */
  function After(big: bool, texts: seq<string>, from: nat): Bytes {
    if texts == [] then [] else Starts(big, texts[1..], from + |texts[0]| + 1)
  }

  lemma AfterOne(big: bool, texts: seq<string>, from: nat)
    requires texts != []
    ensures var next := from + |texts[0]| + 1; After(big, texts, from) == Number(big, next, 4) + After(big, texts[1..], next)
  {
  }

  method PushTexts(texts: seq<string>) returns (out: Bytes)
    ensures out == Terminated(texts)
  {
    hide BytesOf, Terminated;
    out := [];
    assert texts[0..] == texts;
    var i := 0;
    while i < |texts|
      invariant 0 <= i <= |texts| && out + Terminated(texts[i..]) == Terminated(texts)
    {
      TerminatedNext(texts, i);
      Regroup(out, BytesOf(texts[i]) + [0], Terminated(texts[i + 1..]));
      out := out + (BytesOf(texts[i]) + [0]);
      i := i + 1;
    }
    NothingAfter(out, texts[i..]);
  }

  lemma NothingAfter(out: Bytes, texts: seq<string>)
    requires texts == []
    ensures out + Terminated(texts) == out
  {
  }

  lemma TerminatedNext(texts: seq<string>, i: nat)
    requires i < |texts|
    ensures Terminated(texts[i..]) == (BytesOf(texts[i]) + [0]) + Terminated(texts[i + 1..])
  {
    hide BytesOf;
    assert texts[i..][1..] == texts[i + 1..];
  }

  lemma Regroup(a: Bytes, b: Bytes, c: Bytes)
    ensures a + b + c == a + (b + c)
  {
  }

  // ---------- reading a table ----------

  function Stripped(raw: Bytes): Bytes {
    if raw != [] && raw[|raw| - 1] == 0 then raw[..|raw| - 1] else raw
  }

  function TextFrom(raw: Bytes): string {
    seq(|raw|, i requires 0 <= i < |raw| => raw[i] as char)
  }

  function ReadTable(data: Bytes, big: bool, at: nat): Option<seq<string>> {
    if at == 0 then Some([])
    else
      match Reader(data, big, [], []).Count(at, STRING_TABLE)
      case None => None
      case Some(count) => ReadTexts(data, big, at, at + 4, count)
  }

  /** The texts whose starts are at `word` and after it. */
  function ReadTexts(data: Bytes, big: bool, table: nat, word: nat, left: nat): Option<seq<string>>
    decreases left
  {
    if left == 0 then Some([])
    else
      match ReadText(data, big, table, word)
      case None => None
      case Some(text) =>
        (match ReadTexts(data, big, table, word + 4, left - 1)
         case None => None
         case Some(rest) => Some([text] + rest))
  }

  function ReadText(data: Bytes, big: bool, table: nat, word: nat): Option<string> {
    match (Reader(data, big, [], []).Number(word, 4), Reader(data, big, [], []).Number(word + 4, 4))
    case (Some(from), Some(to)) =>
      if from > to || table + to > |data| then None else Some(TextFrom(Stripped(data[table + from..table + to])))
    case _ => None
  }

  lemma TextBack(text: string)
    requires Plain(text)
    ensures TextFrom(Stripped(BytesOf(text) + [0])) == text
  {
    var raw := BytesOf(text) + [0];
    assert raw[..|raw| - 1] == BytesOf(text);
  }

  lemma FirstTwoStarts(data: Bytes, big: bool, texts: seq<string>, at: nat, from: nat)
    requires texts != [] && Holds(data, at, Starts(big, texts, from)) && from + |texts[0]| + 1 < WORD
    ensures Reader(data, big, [], []).Number(at, 4) == Some(from)
    ensures Reader(data, big, [], []).Number(at + 4, 4) == Some(from + |texts[0]| + 1)
    ensures Holds(data, at + 4, Starts(big, texts[1..], from + |texts[0]| + 1))
  {
    hide Number, NumberAt, Reader.Number, Holds;
    Powers();
    var next := from + |texts[0]| + 1;
    HoldsSplit(data, at, Number(big, from, 4), Starts(big, texts[1..], next));
    NumberHeld(data, big, [], [], at, from, 4);
    HoldsSplit(data, at + 4, Number(big, next, 4), if texts[1..] == [] then [] else Starts(big, texts[1..][1..], next + |texts[1..][0]| + 1));
    NumberHeld(data, big, [], [], at + 4, next, 4);
  }

  lemma {:induction false} TextsBack(data: Bytes, big: bool, table: nat, word: nat, texts: seq<string>, from: nat)
    requires |data| < WORD && forall i :: 0 <= i < |texts| ==> Plain(texts[i])
    requires Holds(data, word, Starts(big, texts, from)) && Holds(data, table + from, Terminated(texts))
    ensures ReadTexts(data, big, table, word, |texts|) == Some(texts)
    decreases |texts|
  {
    hide ReadText, Starts, Terminated, Holds, Plain;
    if texts != [] {
      var rest, next := texts[1..], from + |texts[0]| + 1;
      TextRead(data, big, table, word, texts, from);
      TextsBack(data, big, table, word + 4, rest, next);
      assert [texts[0]] + rest == texts;
    }
  }

  lemma TextRead(data: Bytes, big: bool, table: nat, word: nat, texts: seq<string>, from: nat)
    requires |data| < WORD && texts != [] && Plain(texts[0])
    requires Holds(data, word, Starts(big, texts, from)) && Holds(data, table + from, Terminated(texts))
    ensures ReadText(data, big, table, word) == Some(texts[0])
    ensures Holds(data, word + 4, Starts(big, texts[1..], from + |texts[0]| + 1))
    ensures Holds(data, table + (from + |texts[0]| + 1), Terminated(texts[1..]))
  {
    hide Number, NumberAt, Terminated, Starts, TextFrom, Stripped;
    FirstText(data, table + from, texts);
    FirstTwoStarts(data, big, texts, word, from);
  }

  lemma FirstText(data: Bytes, at: nat, texts: seq<string>)
    requires texts != [] && Plain(texts[0]) && Holds(data, at, Terminated(texts))
    ensures at + |texts[0]| + 1 <= |data| && TextFrom(Stripped(data[at..at + |texts[0]| + 1])) == texts[0]
    ensures Holds(data, at + |texts[0]| + 1, Terminated(texts[1..]))
  {
    HoldsSplit(data, at, BytesOf(texts[0]) + [0], Terminated(texts[1..]));
    TextBack(texts[0]);
  }

  lemma HoldsFour(data: Bytes, at: nat, a: Bytes, b: Bytes, c: Bytes, d: Bytes)
    requires Holds(data, at, a + b + c + d)
    ensures Holds(data, at, a) && Holds(data, at + |a|, b) && Holds(data, at + |a| + |b|, c)
  {
    HoldsSplit(data, at, a + b + c, d);
    HoldsSplit(data, at, a + b, c);
    HoldsSplit(data, at, a, b);
  }

  /** A table read back is the table written. */
  lemma TableBack(data: Bytes, big: bool, at: nat, texts: seq<string>)
    requires |data| < WORD && |texts| < COUNTS && forall i :: 0 <= i < |texts| ==> Plain(texts[i])
    requires if texts == [] then at == 0 else at > 0 && Holds(data, at, Table(big, texts))
    ensures ReadTable(data, big, at) == Some(texts)
  {
    hide Number, NumberAt, ReadTexts, Starts, Terminated, Header;
    if texts != [] {
      var header, from := Header(big, STRING_TABLE, |texts|), 4 + 4 * (|texts| + 1);
      var starts, terminated := Starts(big, texts, from), Terminated(texts);
      HoldsFour(data, at, header, starts, terminated, Zeros(Padding(|terminated|)));
      CountHeld(Reader(data, big, [], []), at, STRING_TABLE, |texts|);
      TextsBack(data, big, at, at + 4, texts, from);
    }
  }
}
