/** The record printers of the todo-app adapters, in their two forms, and a parser that undoes them. */
module Printers {
  import opened Options
  import opened Decimal

  datatype Record = Record(deleted: bool, id: int, pinned: bool, value: string)

  function BoolText(b: bool): string {
    if b then "True" else "False"
  }

  function IntText(i: int): string {
    if i < 0 then "-" + Numeral(-i) else Numeral(i)
  }

  function Join(parts: seq<string>): string {
    if parts == [] then ""
    else if |parts| == 1 then parts[0]
    else parts[0] + ", " + Join(parts[1..])
  }

  // ----- The TypeScript form: map and join -----

  function Field(key: string, text: string): string {
    key + " = " + text
  }

  function Quoted(s: string): string {
    "\"" + s + "\""
  }

  function Parts(r: Record): seq<string> {
    [Field("deleted", BoolText(r.deleted)),
     Field("id", IntText(r.id)),
     Field("pinned", BoolText(r.pinned)),
     Field("value", Quoted(r.value))]
  }

  function Print(r: Record): string {
    "record(" + Join(Parts(r)) + ")"
  }

  function PrintAll(records: seq<Record>): seq<string> {
    seq(|records|, i requires 0 <= i < |records| => Print(records[i]))
  }

  function PrintList(records: seq<Record>): string {
    "[" + Join(PrintAll(records)) + "]"
  }

  // ----- The Java form: separator loops over map entries -----

  /** The values that an adapter puts into its maps. */
  datatype JavaValue = Str(s: string) | Bool(b: bool) | Num(n: int)

  datatype MapEntry = MapEntry(key: string, value: JavaValue)

  function ValueText(v: JavaValue): string {
    match v
    case Str(s) => Quoted(s)
    case Bool(b) => BoolText(b)
    case Num(n) => IntText(n)
  }

  function EntryTexts(entries: seq<MapEntry>): seq<string> {
    seq(|entries|, i requires 0 <= i < |entries| => Field(entries[i].key, ValueText(entries[i].value)))
  }

  function MapText(entries: seq<MapEntry>): string {
    "record(" + Join(EntryTexts(entries)) + ")"
  }

  function MapTexts(records: seq<seq<MapEntry>>): seq<string> {
    seq(|records|, i requires 0 <= i < |records| => MapText(records[i]))
  }

  /** A record as the entries of a `TreeMap`, in the order of its keys. */
  function TreeMapOf(r: Record): seq<MapEntry> {
    [MapEntry("deleted", Bool(r.deleted)), MapEntry("id", Num(r.id)), MapEntry("pinned", Bool(r.pinned)),
     MapEntry("value", Str(r.value))]
  }

  lemma TreeMapIsSorted(r: Record, i: nat)
    requires i < 3
    ensures Before(TreeMapOf(r)[i].key, TreeMapOf(r)[i + 1].key)
  {
    assert FirstDifference("deleted", "id", 0);
    assert FirstDifference("id", "pinned", 0);
    assert FirstDifference("pinned", "value", 0);
  }

  function TreeMapsOf(records: seq<Record>): seq<seq<MapEntry>> {
    seq(|records|, i requires 0 <= i < |records| => TreeMapOf(records[i]))
  }

  /** What a separator loop has appended after `j` of the parts. */
  function SoFar(parts: seq<string>, j: nat): string
    requires j <= |parts|
  {
    Join(parts[..j]) + if 0 < j < |parts| then ", " else ""
  }

  lemma {:induction false} JoinSnoc(parts: seq<string>, last: string)
    ensures Join(parts + [last]) == if parts == [] then last else Join(parts) + ", " + last
  {
    if |parts| > 1 {
      var first, sep, rest := parts[0], ", ", Join(parts[1..]);
      JoinSnoc(parts[1..], last);
      assert (parts + [last])[1..] == parts[1..] + [last];
      assert first + sep + (rest + sep + last) == first + sep + rest + sep + last;
    } else if |parts| == 1 {
      assert (parts + [last])[1..] == [last];
    }
  }

  /** One iteration, after any text `start`. */
  lemma SoFarStep(start: string, parts: seq<string>, j: nat)
    requires j < |parts|
    ensures start + SoFar(parts, j) + parts[j] + (if j < |parts| - 1 then ", " else "")
            == start + SoFar(parts, j + 1)
  {
    assert parts[..j + 1] == parts[..j] + [parts[j]];
    JoinSnoc(parts[..j], parts[j]);
    var before, part, sep := SoFar(parts, j), parts[j], if j < |parts| - 1 then ", " else "";
    assert before + part + sep == SoFar(parts, j + 1);
    assert start + before + part + sep == start + (before + part + sep);
  }

  lemma SoFarAll(start: string, parts: seq<string>)
    ensures start + SoFar(parts, |parts|) == start + Join(parts)
  {
    assert parts[..|parts|] == parts;
  }

  lemma Wrapped(before: string, open: string, body: string, close: string)
    ensures before + open + body + close == before + (open + body + close)
  {
  }

  class StringBuilder {
    var text: string

    constructor ()
      ensures text == ""
    {
      text := "";
    }

    method Append(s: string)
      modifies this
      ensures text == old(text) + s
    {
      text := text + s;
    }
  }

  method AppendEntry(sb: StringBuilder, entry: MapEntry)
    modifies sb
    ensures sb.text == old(sb.text) + Field(entry.key, ValueText(entry.value))
  {
    ghost var start := sb.text;
    sb.Append(entry.key);
    sb.Append(" = ");
    ghost var before := sb.text;
    match entry.value {
      case Str(s) =>
        sb.Append("\"");
        sb.Append(s);
        sb.Append("\"");
      case Bool(b) => sb.Append(if b then "True" else "False");
      case Num(n) => sb.Append(IntText(n));
    }
    assert sb.text == before + ValueText(entry.value);
    assert start + entry.key + " = " + ValueText(entry.value) == start + (entry.key + " = " + ValueText(entry.value));
  }

  method AppendRecord(sb: StringBuilder, record: seq<MapEntry>)
    modifies sb
    ensures sb.text == old(sb.text) + MapText(record)
  {
    ghost var before, parts := sb.text, EntryTexts(record);
    sb.Append("record(");
    ghost var start := sb.text;
    var j := 0;
    while j < |record|
      invariant 0 <= j <= |record|
      invariant sb.text == start + SoFar(parts, j)
    {
      SoFarStep(start, parts, j);
      AppendEntry(sb, record[j]);
      if j < |record| - 1 {
        sb.Append(", ");
      }
      j := j + 1;
    }
    SoFarAll(start, parts);
    sb.Append(")");
    Wrapped(before, "record(", Join(parts), ")");
  }

  method ToFizzBeeFormat(records: seq<seq<MapEntry>>) returns (text: string)
    ensures text == "[" + Join(MapTexts(records)) + "]"
  {
    var sb := new StringBuilder();
    ghost var parts := MapTexts(records);
    sb.Append("[");
    var i := 0;
    while i < |records|
      invariant 0 <= i <= |records|
      invariant sb.text == "[" + SoFar(parts, i)
    {
      SoFarStep("[", parts, i);
      AppendRecord(sb, records[i]);
      if i < |records| - 1 {
        sb.Append(", ");
      }
      i := i + 1;
    }
    SoFarAll("[", parts);
    sb.Append("]");
    text := sb.text;
  }

  /** The two printers give the same text for every list of records. */
  lemma PrintersAgree(records: seq<Record>)
    ensures "[" + Join(MapTexts(TreeMapsOf(records))) + "]" == PrintList(records)
  {
    forall i | 0 <= i < |records| ensures MapText(TreeMapOf(records[i])) == Print(records[i]) {
      assert EntryTexts(TreeMapOf(records[i])) == Parts(records[i]);
    }
    assert MapTexts(TreeMapsOf(records)) == PrintAll(records);
  }

  lemma JoinFour(a: string, b: string, c: string, d: string)
    ensures Join([a, b, c, d]) == a + ", " + (b + ", " + (c + ", " + d))
  {
    assert [a, b, c, d][1..] == [b, c, d] && [b, c, d][1..] == [c, d] && [c, d][1..] == [d];
    assert Join([c, d]) == c + ", " + d;
    assert Join([b, c, d]) == b + ", " + (c + ", " + d);
  }

  /** Everything before the value, up to its opening quote. */
  function Head(r: Record): string {
    "record(" + (Field("deleted", BoolText(r.deleted)) + ", " + (Field("id", IntText(r.id)) + ", "
    + (Field("pinned", BoolText(r.pinned)) + ", " + "value = \"")))
  }

  lemma PrintIsHead(r: Record)
    ensures Print(r) == Head(r) + r.value + "\")"
  {
    var p, q := Parts(r), "value = \"";
    JoinFour(p[0], p[1], p[2], p[3]);
    assert p[3] == q + (r.value + "\"");
    HeadShape("record(", p[0], p[1], p[2], q, r.value, "\"", ")");
    assert "\"" + ")" == "\")";
  }

  lemma HeadShape(open: string, a: string, b: string, c: string, q: string, v: string, quote: string, close: string)
    ensures open + (a + ", " + (b + ", " + (c + ", " + (q + (v + quote))))) + close
            == open + (a + ", " + (b + ", " + (c + ", " + q))) + v + (quote + close)
  {
  }

  // ----- A parser -----

  function Expect(s: string, literal: string): (r: Option<string>)
    ensures r.Some? ==> s == literal + r.value
  {
    if literal <= s then Some(s[|literal|..]) else None
  }

  datatype Parsed<T> = Parsed(value: T, rest: string)

  function ParseBool(s: string): (r: Option<Parsed<bool>>)
    ensures r.Some? ==> |r.value.rest| < |s|
  {
    if "True" <= s then Some(Parsed(true, s[4..]))
    else if "False" <= s then Some(Parsed(false, s[5..]))
    else None
  }

  /** The length of the leading run of characters that satisfy `p`. */
  function Run(s: string, p: char -> bool): (n: nat)
    ensures n <= |s| && forall i | 0 <= i < n :: p(s[i])
  {
    if s == "" || !p(s[0]) then 0 else 1 + Run(s[1..], p)
  }

  lemma {:induction false} RunStops(a: string, rest: string, p: char -> bool)
    requires forall i | 0 <= i < |a| :: p(a[i])
    requires rest != "" && !p(rest[0])
    ensures Run(a + rest, p) == |a| && (a + rest)[..|a|] == a && (a + rest)[|a|..] == rest
  {
    if a == "" {
      assert a + rest == rest;
    } else {
      assert (a + rest)[1..] == a[1..] + rest;
      RunStops(a[1..], rest, p);
    }
  }

  predicate NotQuote(c: char) {
    c != '"'
  }

  function ParseInt(s: string): (r: Option<Parsed<int>>)
    ensures r.Some? ==> |r.value.rest| < |s|
  {
    var negative := "-" <= s;
    var digits := if negative then s[1..] else s;
    var n := Run(digits, IsDigit);
    if n == 0 then None
    else
      assert AllDigits(digits[..n]) by { assert forall i | 0 <= i < n :: IsDigit(digits[i]); }
      var d: int := Denotes(digits[..n]);
      Some(Parsed(if negative then -d else d, digits[n..]))
  }

  function ParseKey(s: string, key: string): (r: Option<string>)
    ensures r.Some? ==> |r.value| < |s|
  {
    var s1 :- Expect(s, key);
    Expect(s1, " = ")
  }

  /** A record up to the opening quote of its value, which is left empty. */
  function ParseHead(s: string): (p: Option<Parsed<Record>>)
    ensures p.Some? ==> |p.value.rest| < |s|
  {
    var s1 :- Expect(s, "record(");
    var s2 :- ParseKey(s1, "deleted");
    var deleted :- ParseBool(s2);
    var s3 :- Expect(deleted.rest, ", ");
    var s4 :- ParseKey(s3, "id");
    var id :- ParseInt(s4);
    var s5 :- Expect(id.rest, ", ");
    var s6 :- ParseKey(s5, "pinned");
    var pinned :- ParseBool(s6);
    var s7 :- Expect(pinned.rest, ", ");
    var rest :- Expect(s7, "value = \"");
    Some(Parsed(Record(deleted.value, id.value, pinned.value, ""), rest))
  }

  function ParseRecord(s: string): (p: Option<Parsed<Record>>)
    ensures p.Some? ==> |p.value.rest| < |s|
  {
    var head :- ParseHead(s);
    var n := Run(head.rest, NotQuote);
    var rest :- Expect(head.rest[n..], "\")");
    Some(Parsed(head.value.(value := head.rest[..n]), rest))
  }

  function ParseItems(s: string): Option<seq<Record>>
    decreases |s|
  {
    var item :- ParseRecord(s);
    if item.rest == "]" then Some([item.value])
    else
      var s1 :- Expect(item.rest, ", ");
      var items :- ParseItems(s1);
      Some([item.value] + items)
  }

  function ParseList(s: string): Option<seq<Record>> {
    if s == "[]" then Some([])
    else
      var s1 :- Expect(s, "[");
      ParseItems(s1)
  }

  lemma ExpectFinds(literal: string, rest: string)
    ensures Expect(literal + rest, literal) == Some(rest)
  {
  }

  lemma BoolRoundTrip(b: bool, rest: string)
    ensures ParseBool(BoolText(b) + rest) == Some(Parsed(b, rest))
  {
    if b {
      ExpectFinds("True", rest);
    } else {
      assert ("False" + rest)[0] == 'F';
      ExpectFinds("False", rest);
    }
  }

  lemma DigitsRun(digits: string, rest: string)
    requires AllDigits(digits) && rest != "" && !IsDigit(rest[0])
    ensures Run(digits + rest, IsDigit) == |digits|
    ensures (digits + rest)[..|digits|] == digits && (digits + rest)[|digits|..] == rest
  {
    assert forall k | 0 <= k < |digits| :: IsDigit(digits[k]);
    assert !IsDigit(rest[0]);
    RunStops(digits, rest, IsDigit);
  }

  lemma DigitsParse(digits: string, rest: string)
    requires digits != "" && AllDigits(digits) && rest != "" && !IsDigit(rest[0])
    ensures ParseInt(digits + rest) == Some(Parsed(Denotes(digits) as int, rest))
  {
    DigitsRun(digits, rest);
    assert (digits + rest)[0] == digits[0];
  }

  lemma NegativeParse(digits: string, rest: string)
    requires digits != "" && AllDigits(digits) && rest != "" && !IsDigit(rest[0])
    ensures ParseInt("-" + (digits + rest)) == Some(Parsed(-(Denotes(digits) as int), rest))
  {
    DigitsRun(digits, rest);
    assert ("-" + (digits + rest))[1..] == digits + rest;
  }

  lemma IntRoundTrip(i: int, rest: string)
    requires rest != "" && !IsDigit(rest[0])
    ensures ParseInt(IntText(i) + rest) == Some(Parsed(i, rest))
  {
    var n: nat := if i < 0 then -i else i;
    var digits := Numeral(n);
    NumeralDenotes(n);
    if i < 0 {
      NegativeParse(digits, rest);
    } else {
      DigitsParse(digits, rest);
    }
    IntTextShape(i, rest);
  }

  lemma IntTextShape(i: int, rest: string)
    ensures IntText(i) + rest
            == if i < 0 then "-" + (Numeral(-i) + rest) else Numeral(i) + rest
  {
    if i < 0 {
      assert "-" + Numeral(-i) + rest == "-" + (Numeral(-i) + rest);
    }
  }

  predicate QuoteFree(s: string) {
    forall i | 0 <= i < |s| :: s[i] != '"'
  }

  lemma KeyRoundTrip(key: string, text: string, rest: string)
    ensures ParseKey(Field(key, text) + rest, key) == Some(text + rest)
  {
    assert Field(key, text) + rest == key + (" = " + (text + rest));
    ExpectFinds(key, " = " + (text + rest));
    ExpectFinds(" = ", text + rest);
  }

  /** A head and what follows it, cut where the parser cuts it. */
  lemma HeadCut(open: string, a: string, b: string, c: string, q: string, rest: string)
    ensures open + (a + ", " + (b + ", " + (c + ", " + q))) + rest
            == open + (a + (", " + (b + (", " + (c + (", " + (q + rest)))))))
  {
  }

  /** The head of a record can be read back whatever follows it. */
  lemma HeadRoundTrip(r: Record, rest: string)
    ensures ParseHead(Head(r) + rest) == Some(Parsed(r.(value := ""), rest))
  {
    var p, q := Parts(r), "value = \"";
    var t3 := ", " + (q + rest);
    var t2 := ", " + (p[2] + t3);
    var t1 := ", " + (p[1] + t2);
    HeadCut("record(", p[0], p[1], p[2], q, rest);
    ExpectFinds("record(", p[0] + t1);
    KeyRoundTrip("deleted", BoolText(r.deleted), t1);
    BoolRoundTrip(r.deleted, t1);
    ExpectFinds(", ", p[1] + t2);
    KeyRoundTrip("id", IntText(r.id), t2);
    IntRoundTrip(r.id, t2);
    ExpectFinds(", ", p[2] + t3);
    KeyRoundTrip("pinned", BoolText(r.pinned), t3);
    BoolRoundTrip(r.pinned, t3);
    ExpectFinds(", ", q + rest);
    ExpectFinds(q, rest);
  }

  lemma ValueEnds(value: string, rest: string)
    requires QuoteFree(value)
    ensures var s := value + ("\")" + rest);
            Run(s, NotQuote) == |value| && s[..|value|] == value && s[|value|..] == "\")" + rest
  {
    assert forall i | 0 <= i < |value| :: NotQuote(value[i]);
    RunStops(value, "\")" + rest, NotQuote);
  }

  lemma RecordRoundTrip(r: Record, rest: string)
    requires QuoteFree(r.value)
    ensures ParseRecord(Print(r) + rest) == Some(Parsed(r, rest))
  {
    var after := r.value + ("\")" + rest);
    PrintIsHead(r);
    assert Print(r) + rest == Head(r) + after;
    HeadRoundTrip(r, after);
    ValueEnds(r.value, rest);
    ExpectFinds("\")", rest);
  }

  lemma ItemsStep(s: string, r: Record, rest: string)
    requires ParseRecord(s) == Some(Parsed(r, rest))
    ensures rest == "]" ==> ParseItems(s) == Some([r])
    ensures rest != "]" && Expect(rest, ", ").Some? && ParseItems(Expect(rest, ", ").value).Some? ==>
              ParseItems(s) == Some([r] + ParseItems(Expect(rest, ", ").value).value)
  {
  }

  predicate Reads(text: string, items: seq<Record>) {
    ParseItems(text) == Some(items)
  }

  lemma LastItem(r: Record)
    requires QuoteFree(r.value)
    ensures Reads(Print(r) + "]", [r])
  {
    RecordRoundTrip(r, "]");
    ItemsStep(Print(r) + "]", r, "]");
  }

  lemma FirstItem(r: Record, tail: string, items: seq<Record>)
    requires QuoteFree(r.value) && Reads(tail, items)
    ensures Reads(Print(r) + (", " + tail), [r] + items)
  {
    RecordRoundTrip(r, ", " + tail);
    ExpectFinds(", ", tail);
    ItemsStep(Print(r) + (", " + tail), r, ", " + tail);
  }

  lemma JoinHead(parts: seq<string>, end: string)
    requires |parts| > 1
    ensures Join(parts) + end == parts[0] + (", " + (Join(parts[1..]) + end))
  {
    var first, sep, rest := parts[0], ", ", Join(parts[1..]);
    assert first + sep + rest + end == first + (sep + (rest + end));
  }

  lemma JoinStep(records: seq<Record>)
    requires |records| > 1
    ensures Join(PrintAll(records)) + "]" == Print(records[0]) + (", " + (Join(PrintAll(records[1..])) + "]"))
  {
    JoinHead(PrintAll(records), "]");
    assert PrintAll(records)[1..] == PrintAll(records[1..]);
  }

  /** The text of a list after its opening bracket. */
  function Body(records: seq<Record>): string {
    Join(PrintAll(records)) + "]"
  }

  lemma OneItem(records: seq<Record>)
    requires |records| == 1 && QuoteFree(records[0].value)
    ensures Reads(Body(records), records)
  {
    LastItem(records[0]);
    assert Body(records) == Print(records[0]) + "]";
    assert records == [records[0]];
  }

  lemma OneItemMore(records: seq<Record>)
    requires |records| > 1 && QuoteFree(records[0].value) && Reads(Body(records[1..]), records[1..])
    ensures Reads(Body(records), records)
  {
    FirstItem(records[0], Body(records[1..]), records[1..]);
    JoinStep(records);
    assert records == [records[0]] + records[1..];
  }

  lemma {:induction false} ItemsRoundTrip(records: seq<Record>)
    requires records != [] && forall r | r in records :: QuoteFree(r.value)
    ensures Reads(Body(records), records)
  {
    if |records| == 1 {
      OneItem(records);
    } else {
      ItemsRoundTrip(records[1..]);
      OneItemMore(records);
    }
  }

  /** Parsing a printed list gives the list back, when no value contains a double quote. */
  lemma ListRoundTrip(records: seq<Record>)
    requires forall r | r in records :: QuoteFree(r.value)
    ensures ParseList(PrintList(records)) == Some(records)
  {
    if records != [] {
      var body := Body(records);
      assert PrintList(records) == "[" + body;
      ExpectFinds("[", body);
      ItemsRoundTrip(records);
      assert body != "]";
    } else {
      assert PrintList(records) == "[]";
    }
  }

  /** Hence different lists print differently. */
  lemma PrintingIsInjective(a: seq<Record>, b: seq<Record>)
    requires forall r | r in a + b :: QuoteFree(r.value)
    ensures PrintList(a) == PrintList(b) <==> a == b
  {
    forall r | r in a || r in b ensures r in a + b {
    }
    ListRoundTrip(a);
    ListRoundTrip(b);
  }
}
