/** JSON Schemas as TypeScript type expressions (src/lumi/codegen/ts_client.py, lines 177-214), and those
    expressions read back. */
module TsTypes {
  import opened Common

  // ----- schemas --------------------------------------------------------------------------

  /** A literal value: a quoted text, or a word such as a number. */
  datatype Value = Quoted(text: string) | Plain(text: string)

  datatype Schema =
    | Ref(path: string)
    | Union(alternatives: seq<Schema>)
    | Const(value: Value)
    | Enum(values: seq<Value>)
    | StringType
    | NumberType
    | BooleanType
    | NullType
    | ArrayType(items: Schema)
    | RecordType(extra: Schema)
    | OpenRecordType
    | AnyType

  /** What follows the last slash. */
  function LastSegment(path: string): string {
    if '/' !in path then path else LastSegment(path[1..])
  }

  function ValueText(v: Value): string {
    if v.Quoted? then "\"" + v.text + "\"" else v.text
  }

  function ValueTexts(vs: seq<Value>): (r: seq<string>)
    ensures |r| == |vs|
  {
    seq(|vs|, i requires 0 <= i < |vs| => ValueText(vs[i]))
  }

  const BAR := " | "

  function Join(parts: seq<string>): string {
    if parts == [] then "" else if |parts| == 1 then parts[0] else parts[0] + BAR + Join(parts[1..])
  }

  /** The parts without those that occurred before. */
  function Distinct(parts: seq<string>): seq<string> {
    if parts == [] then []
    else
      var before, last := parts[..|parts| - 1], parts[|parts| - 1];
      if last in before then Distinct(before) else Distinct(before) + [last]
  }

  predicate Contains(text: string, part: string) {
    part <= text || (text != "" && Contains(text[1..], part))
  }

  // ----- the printer --------------------------------------------------------------------------

  function TsType(s: Schema): string
    decreases s, 0
  {
    match s
    case Ref(path) => LastSegment(path)
    case Union(alternatives) => Join(Distinct(TsTypeAll(alternatives)))
    case Const(value) => ValueText(value)
    case Enum(values) => Join(ValueTexts(values))
    case StringType => "string"
    case NumberType => "number"
    case BooleanType => "boolean"
    case NullType => "null"
    case ArrayType(items) =>
      var item := TsType(items);
      if Contains(item, BAR) then "(" + item + ")[]" else item + "[]"
    case RecordType(extra) => "Record<string, " + TsType(extra) + ">"
    case OpenRecordType => "Record<string, unknown>"
    case AnyType => "unknown"
  }

  function TsTypeAll(ss: seq<Schema>): (r: seq<string>)
    ensures |r| == |ss|
    decreases ss
  {
    if ss == [] then [] else TsTypeAll(ss[..|ss| - 1]) + [TsType(ss[|ss| - 1])]
  }

  // ----- what a schema means ---------------------------------------------------------------------

  /** A type is the set of its union's members: named types and literals, arrays and records of a type. */
  datatype Member = Atom(name: string) | ArrayOf(element: set<Member>) | RecordOf(element: set<Member>)

  type Type = set<Member>

  function Meaning(s: Schema): Type
    decreases s
  {
    match s
    case Ref(path) => {Atom(LastSegment(path))}
    case Union(alternatives) => MeaningAll(alternatives)
    case Const(value) => {Atom(ValueText(value))}
    case Enum(values) => AtomsOf(ValueTexts(values))
    case StringType => {Atom("string")}
    case NumberType => {Atom("number")}
    case BooleanType => {Atom("boolean")}
    case NullType => {Atom("null")}
    case ArrayType(items) => {ArrayOf(Meaning(items))}
    case RecordType(extra) => {RecordOf(Meaning(extra))}
    case OpenRecordType => {RecordOf({Atom("unknown")})}
    case AnyType => {Atom("unknown")}
  }

  function MeaningAll(ss: seq<Schema>): Type
    decreases ss
  {
    if ss == [] then {} else MeaningAll(ss[..|ss| - 1]) + Meaning(ss[|ss| - 1])
  }

  function AtomsOf(texts: seq<string>): Type {
    if texts == [] then {} else {Atom(texts[0])} + AtomsOf(texts[1..])
  }

  predicate IsWordChar(c: char) {
    c !in " ()[]<>|,\""
  }

  predicate IsWord(w: string) {
    w != "" && forall i :: 0 <= i < |w| ==> IsWordChar(w[i])
  }

  predicate IsPrintable(v: Value) {
    if v.Quoted? then '"' !in v.text else IsWord(v.text)
  }

  /** Names are words, quoted texts need no escaping, and there is something in every union and enumeration. */
  predicate IsWellFormed(s: Schema)
    decreases s
  {
    match s
    case Ref(path) => IsWord(LastSegment(path))
    case Union(alternatives) => alternatives != [] && forall i :: 0 <= i < |alternatives| ==> IsWellFormed(alternatives[i])
    case Const(value) => IsPrintable(value)
    case Enum(values) => values != [] && forall i :: 0 <= i < |values| ==> IsPrintable(values[i])
    case ArrayType(items) => IsWellFormed(items)
    case RecordType(extra) => IsWellFormed(extra)
    case _ => true
  }

  // ----- reading a type expression -------------------------------------------------------------------

  datatype Parse = Fail | Parsed(value: Type, rest: string)

  function WordLength(text: string): (n: nat)
    ensures n <= |text|
  {
    if text == "" || !IsWordChar(text[0]) then 0 else 1 + WordLength(text[1..])
  }

  function QuoteAt(text: string): (n: nat)
    ensures n <= |text|
  {
    if text == "" || text[0] == '"' then 0 else 1 + QuoteAt(text[1..])
  }

  const RECORD := "Record<string, "

  /** Expects `close` next. */
  function Closed(p: Parse, close: char, wrap: Type -> Type): (r: Parse)
    ensures r.Parsed? ==> p.Parsed? && |r.rest| < |p.rest|
  {
    if p.Parsed? && p.rest != "" && p.rest[0] == close then Parsed(wrap(p.value), p.rest[1..]) else Fail
  }

  function Same(t: Type): Type {
    t
  }

  function AsRecord(t: Type): Type {
    {RecordOf(t)}
  }

  /** A parenthesised type, a record, a quoted literal or a word. */
  function ParsePrimary(text: string): (r: Parse)
    ensures r.Parsed? ==> |r.rest| < |text|
    decreases |text|, 0
  {
    if text != "" && text[0] == '(' then Closed(ParseType(text[1..]), ')', Same)
    else if RECORD <= text then Closed(ParseType(text[|RECORD|..]), '>', AsRecord)
    else if text != "" && text[0] == '"' then
      var n := QuoteAt(text[1..]);
      if n + 1 < |text| then Parsed({Atom(text[..n + 2])}, text[n + 2..]) else Fail
    else
      var n := WordLength(text);
      if n > 0 then Parsed({Atom(text[..n])}, text[n..]) else Fail
  }

  /** Each pair of brackets makes an array of all that came before it. */
  function Brackets(value: Type, rest: string): (r: Parse)
    ensures r.Parsed? && |r.rest| <= |rest|
    decreases |rest|
  {
    if "[]" <= rest then Brackets({ArrayOf(value)}, rest[2..]) else Parsed(value, rest)
  }

  function ParsePostfix(text: string): (r: Parse)
    ensures r.Parsed? ==> |r.rest| < |text|
    decreases |text|, 1
  {
    var p := ParsePrimary(text);
    if p.Parsed? then Brackets(p.value, p.rest) else Fail
  }

  /** The rest of a union: more members after a bar, or nothing. */
  function ParseMore(value: Type, rest: string): (r: Parse)
    ensures r.Parsed? ==> |r.rest| <= |rest|
    decreases |rest|, 3
  {
    if BAR <= rest then
      var p := ParseType(rest[3..]);
      if p.Parsed? then Parsed(value + p.value, p.rest) else Fail
    else Parsed(value, rest)
  }

  function ParseType(text: string): (r: Parse)
    ensures r.Parsed? ==> |r.rest| < |text|
    decreases |text|, 2
  {
    var p := ParsePostfix(text);
    if p.Parsed? then ParseMore(p.value, p.rest) else Fail
  }

  /** The name a reference prints is the part of its path after the last slash. */
  lemma {:induction false} LastSegmentExactly(path: string)
    ensures var name := LastSegment(path);
            '/' !in name && (name == path || exists before :: path == before + "/" + name)
  {
    if '/' in path {
      var rest := path[1..];
      var name := LastSegment(rest);
      LastSegmentExactly(rest);
      if name == rest {
        assert path[0] == '/';
        assert path == "" + "/" + name;
      } else {
        var before :| rest == before + "/" + name;
        assert path == (path[..1] + before) + "/" + name;
      }
    }
  }

  /** Printable literals that print alike are the same. */
  lemma LiteralsStayApart(v: Value, w: Value)
    requires IsPrintable(v) && IsPrintable(w) && ValueText(v) == ValueText(w)
    ensures v == w
  {
    QuotedStarts(v);
    QuotedStarts(w);
    if v.Quoted? {
      assert ValueText(v)[1..|v.text| + 1] == v.text && ValueText(w)[1..|w.text| + 1] == w.text;
    }
  }

  lemma QuotedStarts(v: Value)
    requires IsPrintable(v)
    ensures ValueText(v) != "" && (v.Quoted? <==> ValueText(v)[0] == '"')
  {
    if v.Plain? { assert IsWordChar(v.text[0]); }
  }

  /** A part is contained exactly when it is there at some place. */
  lemma {:induction false} ContainsExactly(text: string, part: string)
    ensures Contains(text, part) <==> exists i :: 0 <= i <= |text| && part <= text[i..]
  {
    assert text[0..] == text;
    if text != "" {
      ContainsExactly(text[1..], part);
      if i :| 0 <= i <= |text[1..]| && part <= text[1..][i..] {
        assert text[i + 1..] == text[1..][i..];
      }
      if i :| 0 < i <= |text| && part <= text[i..] {
        assert text[1..][i - 1..] == text[i..];
      }
    }
  }

  /** An array prints its items in parentheses exactly when their text shows a bar. */
  lemma ArraysPrintExactly(items: Schema)
    ensures TsType(ArrayType(items)) ==
            if exists i :: 0 <= i <= |TsType(items)| && BAR <= TsType(items)[i..] then "(" + TsType(items) + ")[]" else TsType(items) + "[]"
  {
    ContainsExactly(TsType(items), BAR);
  }

  /** No part is left in twice, and the parts left in of some first parts are the first of those left in: each stays
      where it first occurred. */
  lemma {:induction false} DistinctKeepsFirsts(parts: seq<string>, n: nat)
    requires n <= |parts|
    ensures Distinct(parts[..n]) <= Distinct(parts)
    ensures forall i, j :: 0 <= i < j < |Distinct(parts)| ==> Distinct(parts)[i] != Distinct(parts)[j]
  {
    if parts != [] {
      var before, last := parts[..|parts| - 1], parts[|parts| - 1];
      if n < |parts| {
        DistinctKeepsFirsts(before, n);
        assert before[..n] == parts[..n];
      } else {
        DistinctKeepsFirsts(before, 0);
        assert parts[..n] == parts;
      }
      if last !in before { OnlyParts(before, last); }
    }
  }

  lemma {:induction false} OnlyParts(parts: seq<string>, p: string)
    ensures p in Distinct(parts) ==> p in parts
  {
    if parts != [] {
      OnlyParts(parts[..|parts| - 1], p);
    }
  }

  /** Members are written one after the other with a bar between, in their order. */
  lemma {:induction false} JoinExactly(parts: seq<string>, more: seq<string>)
    requires parts != [] && more != []
    ensures Join(parts + more) == Join(parts) + " | " + Join(more)
  {
    if |parts| == 1 {
      assert (parts + more)[1..] == more;
    } else {
      assert (parts + more)[1..] == parts[1..] + more;
      JoinExactly(parts[1..], more);
    }
  }
}
