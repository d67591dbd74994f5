/** Every printed type expression reads back as the meaning of its schema. */
module TsReading {
  import opened Common
  import opened TsTypes

  // ----- what may follow ----------------------------------------------------------------------

  /** What can stand after a whole type: the end, a closing character, or another member. */
  predicate Ends(rest: string) {
    rest == "" || rest[0] == ')' || rest[0] == '>' || BAR <= rest
  }

  predicate WordEnds(rest: string) {
    Ends(rest) || "[]" <= rest
  }

  /** The text reads as the type, whatever may follow. */
  ghost predicate ParsesAs(text: string, t: Type) {
    forall rest :: Ends(rest) ==> ParseType(text + rest) == ParseMore(t, rest)
  }

  /** The text reads as the type even before brackets. */
  ghost predicate PostfixAs(text: string, t: Type) {
    forall rest :: WordEnds(rest) ==> ParsePostfix(text + rest) == Brackets(t, rest)
  }

  lemma EndsAreNoBrackets(rest: string)
    requires Ends(rest)
    ensures !("[]" <= rest)
  {
    assert BAR[0] == ' ' && "[]"[0] == '[';
  }

  lemma PostfixParses(text: string, t: Type)
    requires PostfixAs(text, t)
    ensures ParsesAs(text, t)
  {
    forall rest | Ends(rest) ensures ParseType(text + rest) == ParseMore(t, rest) {
      EndsAreNoBrackets(rest);
      assert ParsePostfix(text + rest) == Brackets(t, rest);
    }
  }

  /** The type of a whole text. */
  function Read(text: string): Type {
    var p := ParseType(text);
    if p.Parsed? then p.value else {}
  }

  lemma ParsesWhole(text: string, t: Type)
    requires ParsesAs(text, t)
    ensures ParseType(text) == Parsed(t, "") && Read(text) == t
  {
    assert text + "" == text;
    assert ParseMore(t, "") == Parsed(t, "");
  }

  // ----- words and literals -----------------------------------------------------------------------

  lemma {:induction false} WordLengthOf(w: string, rest: string)
    requires (forall i :: 0 <= i < |w| ==> IsWordChar(w[i])) && (rest == "" || !IsWordChar(rest[0]))
    ensures WordLength(w + rest) == |w|
  {
    if w == "" {
      assert w + rest == rest;
    } else {
      assert (w + rest)[1..] == w[1..] + rest;
      WordLengthOf(w[1..], rest);
    }
  }

  lemma DiffersAt(prefix: string, text: string, i: nat)
    requires i < |prefix| && (i < |text| ==> text[i] != prefix[i])
    ensures !(prefix <= text)
  {
  }

  predicate IsRecordLetter(c: char) {
    c == 'R' || c == 'e' || c == 'c' || c == 'o' || c == 'r' || c == 'd' || c == '<'
  }

  lemma RecordBegins(i: nat)
    requires i <= 6
    ensures i < |RECORD| && IsRecordLetter(RECORD[i]) && RECORD[6] == '<'
  {
  }

  lemma WordIsNoRecord(w: string, rest: string)
    requires IsWord(w) && WordEnds(rest)
    ensures !(RECORD <= w + rest)
  {
    if |w| > 6 {
      assert IsWordChar(w[6]) && (w + rest)[6] == w[6];
      RecordBegins(6);
      DiffersAt(RECORD, w + rest, 6);
    } else {
      RecordBegins(|w|);
      if rest != "" {
        assert (w + rest)[|w|] == rest[0];
        assert BAR[0] == ' ' && "[]"[0] == '[';
        assert !IsRecordLetter(rest[0]);
      }
      DiffersAt(RECORD, w + rest, |w|);
    }
  }

  lemma EndsWords(rest: string)
    requires WordEnds(rest)
    ensures rest == "" || !IsWordChar(rest[0])
  {
    assert BAR[0] == ' ' && "[]"[0] == '[';
  }

  lemma WordPostfix(w: string)
    requires IsWord(w)
    ensures PostfixAs(w, {Atom(w)})
  {
    forall rest | WordEnds(rest) ensures ParsePostfix(w + rest) == Brackets({Atom(w)}, rest) {
      EndsWords(rest);
      WordLengthOf(w, rest);
      WordIsNoRecord(w, rest);
      assert IsWordChar(w[0]) && (w + rest)[0] == w[0];
      assert (w + rest)[..|w|] == w && (w + rest)[|w|..] == rest;
    }
  }

  lemma {:induction false} QuoteAtEnd(t: string, rest: string)
    requires '"' !in t
    ensures QuoteAt(t + "\"" + rest) == |t|
  {
    var text := t + "\"" + rest;
    if t != "" {
      assert text[1..] == t[1..] + "\"" + rest;
      assert text[0] == t[0] != '"';
      QuoteAtEnd(t[1..], rest);
    }
  }

  lemma QuotedPostfix(t: string)
    requires '"' !in t
    ensures PostfixAs("\"" + t + "\"", {Atom("\"" + t + "\"")})
  {
    var q := "\"" + t + "\"";
    forall rest | WordEnds(rest) ensures ParsePostfix(q + rest) == Brackets({Atom(q)}, rest) {
      var text := q + rest;
      assert text[0] == '"' && text[1..] == t + "\"" + rest;
      assert RECORD[0] == 'R';
      QuoteAtEnd(t, rest);
      assert text[..|t| + 2] == q && text[|t| + 2..] == rest;
    }
  }

  lemma ValuePostfix(v: Value)
    requires IsPrintable(v)
    ensures PostfixAs(ValueText(v), {Atom(ValueText(v))})
  {
    if v.Quoted? { QuotedPostfix(v.text); } else { WordPostfix(v.text); }
  }

  // ----- arrays and records --------------------------------------------------------------------------

  lemma ArrayPostfix(text: string, t: Type)
    requires PostfixAs(text, t)
    ensures PostfixAs(text + "[]", {ArrayOf(t)})
  {
    forall rest | WordEnds(rest) ensures ParsePostfix(text + "[]" + rest) == Brackets({ArrayOf(t)}, rest) {
      var more := "[]" + rest;
      assert text + "[]" + rest == text + more;
      assert more[2..] == rest && "[]" <= more;
      assert ParsePostfix(text + more) == Brackets(t, more);
    }
  }

  lemma ClosesBefore(text: string, t: Type, close: char, rest: string)
    requires ParsesAs(text, t) && (close == ')' || close == '>')
    ensures ParseType(text + ([close] + rest)) == Parsed(t, [close] + rest)
  {
    assert Ends([close] + rest);
    assert BAR[0] == ' ';
    assert !(BAR <= [close] + rest);
  }

  lemma Parenthesised(text: string, t: Type, rest: string)
    requires ParseType(text + ([')'] + ("[]" + rest))) == Parsed(t, [')'] + ("[]" + rest))
    ensures ParsePostfix("(" + text + ")[]" + rest) == Brackets({ArrayOf(t)}, rest)
  {
    var more := "[]" + rest;
    var whole := "(" + text + ")[]" + rest;
    assert whole[1..] == text + ([')'] + more);
    assert ([')'] + more)[1..] == more && more[2..] == rest;
    assert ParsePrimary(whole) == Parsed(t, more);
  }

  lemma ParenthesesPostfix(text: string, t: Type)
    requires ParsesAs(text, t)
    ensures PostfixAs("(" + text + ")[]", {ArrayOf(t)})
  {
    forall rest | WordEnds(rest) ensures ParsePostfix("(" + text + ")[]" + rest) == Brackets({ArrayOf(t)}, rest) {
      ClosesBefore(text, t, ')', "[]" + rest);
      Parenthesised(text, t, rest);
    }
  }

  lemma Recorded(text: string, t: Type, rest: string)
    requires ParseType(text + (['>'] + rest)) == Parsed(t, ['>'] + rest)
    ensures ParsePrimary("Record<string, " + text + ">" + rest) == Parsed({RecordOf(t)}, rest)
  {
    var whole := "Record<string, " + text + ">" + rest;
    assert whole == RECORD + (text + (['>'] + rest));
    assert whole[|RECORD|..] == text + (['>'] + rest) && RECORD <= whole && whole[0] == 'R';
    assert (['>'] + rest)[1..] == rest;
  }

  lemma RecordPostfix(text: string, t: Type)
    requires ParsesAs(text, t)
    ensures PostfixAs("Record<string, " + text + ">", {RecordOf(t)})
  {
    forall rest | WordEnds(rest) ensures ParsePostfix("Record<string, " + text + ">" + rest) == Brackets({RecordOf(t)}, rest) {
      ClosesBefore(text, t, '>', rest);
      Recorded(text, t, rest);
    }
  }

  // ----- unions ------------------------------------------------------------------------------------------

  function Reads(texts: seq<string>): Type {
    if texts == [] then {} else Read(texts[0]) + Reads(texts[1..])
  }

  lemma {:induction false} ReadsHas(texts: seq<string>, m: Member)
    ensures m in Reads(texts) <==> exists p :: p in texts && m in Read(p)
  {
    if texts != [] {
      ReadsHas(texts[1..], m);
      assert texts == [texts[0]] + texts[1..];
    }
  }

  lemma ParseMoreAdds(a: Type, b: Type, rest: string)
    ensures var p := ParseMore(b, rest);
            ParseMore(a + b, rest) == if p.Parsed? then Parsed(a + p.value, p.rest) else Fail
  {
    if BAR <= rest {
      var p := ParseType(rest[3..]);
      if p.Parsed? { assert a + b + p.value == a + (b + p.value); }
    }
  }

  lemma MoreMembers(a: Type, text: string)
    ensures var p := ParseType(text);
            ParseMore(a, BAR + text) == if p.Parsed? then Parsed(a + p.value, p.rest) else Fail
  {
    assert (BAR + text)[3..] == text && BAR <= BAR + text;
  }

  lemma MembersAdd(first: string, a: Type, others: string, b: Type, rest: string)
    requires ParseType(first + (BAR + (others + rest))) == ParseMore(a, BAR + (others + rest))
    requires ParseType(others + rest) == ParseMore(b, rest)
    ensures ParseType(first + BAR + others + rest) == ParseMore(a + b, rest)
  {
    assert first + BAR + others + rest == first + (BAR + (others + rest));
    MoreMembers(a, others + rest);
    ParseMoreAdds(a, b, rest);
  }

  lemma BarParses(first: string, a: Type, others: string, b: Type, rest: string)
    requires ParsesAs(first, a) && ParsesAs(others, b) && Ends(rest)
    ensures ParseType(first + BAR + others + rest) == ParseMore(a + b, rest)
  {
    assert BAR <= BAR + (others + rest);
    MembersAdd(first, a, others, b, rest);
  }

  lemma {:induction false} JoinParses(texts: seq<string>)
    requires texts != [] && forall p :: p in texts ==> ParsesAs(p, Read(p))
    ensures ParsesAs(Join(texts), Reads(texts))
  {
    if |texts| == 1 {
      assert Reads(texts) == Read(texts[0]) + Reads(texts[1..]);
      assert Reads(texts) == Read(texts[0]);
    } else {
      var others := texts[1..];
      JoinParses(others);
      forall rest | Ends(rest) ensures ParseType(Join(texts) + rest) == ParseMore(Reads(texts), rest) {
        BarParses(texts[0], Read(texts[0]), Join(others), Reads(others), rest);
      }
    }
  }

  lemma {:induction false} DistinctHas(parts: seq<string>, p: string)
    ensures p in Distinct(parts) <==> p in parts
    ensures parts != [] ==> Distinct(parts) != [] && Distinct(parts)[0] == parts[0]
  {
    if parts != [] {
      var before, last := parts[..|parts| - 1], parts[|parts| - 1];
      DistinctHas(before, p);
      DistinctHas(before, last);
      assert parts == before + [last];
    }
  }

  /** Leaving out repeated members changes nothing. */
  lemma DistinctReads(parts: seq<string>)
    ensures Reads(Distinct(parts)) == Reads(parts)
  {
    forall m ensures m in Reads(Distinct(parts)) <==> m in Reads(parts) {
      ReadsHas(Distinct(parts), m);
      ReadsHas(parts, m);
      if m in Reads(parts) {
        var p :| p in parts && m in Read(p);
        DistinctHas(parts, p);
      }
      if m in Reads(Distinct(parts)) {
        var p :| p in Distinct(parts) && m in Read(p);
        DistinctHas(parts, p);
      }
    }
  }

  lemma {:induction false} ContainsBetween(before: string, part: string, after: string)
    ensures Contains(before + part + after, part)
  {
    var text := before + part + after;
    if before == "" {
      assert text == part + after;
    } else {
      assert text[1..] == before[1..] + part + after;
      ContainsBetween(before[1..], part, after);
    }
  }

  /** Two members or more show a bar. */
  lemma JoinShowsBar(texts: seq<string>)
    requires |texts| >= 2
    ensures Contains(Join(texts), BAR)
  {
    ContainsBetween(texts[0], BAR, Join(texts[1..]));
  }

  // ----- schemas ---------------------------------------------------------------------------------------------

  /** The printed text reads as the schema's meaning; and when it shows no bar it does so even before brackets, and
      the schema has a single member. */
  ghost predicate PrintsWell(s: Schema) {
    && ParsesAs(TsType(s), Meaning(s))
    && (!Contains(TsType(s), BAR) ==> PostfixAs(TsType(s), Meaning(s)) && exists m :: Meaning(s) == {m})
  }

  lemma PostfixPrintsWell(s: Schema, m: Member)
    requires PostfixAs(TsType(s), Meaning(s)) && Meaning(s) == {m}
    ensures PrintsWell(s)
  {
    PostfixParses(TsType(s), Meaning(s));
  }

  lemma {:induction false} AllReadAsMeant(ss: seq<Schema>)
    requires forall i :: 0 <= i < |ss| ==> PrintsWell(ss[i])
    ensures Reads(TsTypeAll(ss)) == MeaningAll(ss)
    ensures forall p :: p in TsTypeAll(ss) ==> ParsesAs(p, Read(p))
  {
    if ss != [] {
      var before, last := ss[..|ss| - 1], ss[|ss| - 1];
      AllReadAsMeant(before);
      ParsesWhole(TsType(last), Meaning(last));
      var texts, p := TsTypeAll(before), TsType(last);
      assert TsTypeAll(ss) == texts + [p];
      ReadsAppend(texts, p);
    }
  }

  lemma {:induction false} ReadsAppend(texts: seq<string>, p: string)
    ensures Reads(texts + [p]) == Reads(texts) + Read(p)
  {
    if texts == [] {
      assert [p][1..] == [];
    } else {
      assert (texts + [p])[1..] == texts[1..] + [p];
      ReadsAppend(texts[1..], p);
    }
  }

  lemma {:induction false} FirstPrinted(ss: seq<Schema>)
    requires ss != []
    ensures TsTypeAll(ss)[0] == TsType(ss[0])
  {
    if |ss| > 1 {
      FirstPrinted(ss[..|ss| - 1]);
    }
  }

  lemma UnionPrintsWell(ss: seq<Schema>)
    requires ss != [] && forall i :: 0 <= i < |ss| ==> PrintsWell(ss[i])
    ensures PrintsWell(Union(ss))
  {
    var parts := TsTypeAll(ss);
    var distinct := Distinct(parts);
    AllReadAsMeant(ss);
    DistinctReads(parts);
    forall p | p in distinct ensures ParsesAs(p, Read(p)) { DistinctHas(parts, p); }
    DistinctHas(parts, parts[0]);
    JoinParses(distinct);
    FirstPrinted(ss);
    if |distinct| >= 2 {
      JoinShowsBar(distinct);
    } else {
      assert distinct == [TsType(ss[0])];
      ParsesWhole(TsType(ss[0]), Meaning(ss[0]));
      assert Reads(distinct) == Read(distinct[0]) + Reads(distinct[1..]) == Meaning(ss[0]);
      assert PrintsWell(ss[0]);
    }
  }

  lemma {:induction false} AtomsRead(texts: seq<string>)
    requires forall p :: p in texts ==> PostfixAs(p, {Atom(p)})
    ensures Reads(texts) == AtomsOf(texts)
    ensures forall p :: p in texts ==> ParsesAs(p, Read(p))
  {
    if texts != [] {
      AtomsRead(texts[1..]);
      PostfixParses(texts[0], {Atom(texts[0])});
      ParsesWhole(texts[0], {Atom(texts[0])});
      assert texts == [texts[0]] + texts[1..];
    }
  }

  lemma EnumPrintsWell(vs: seq<Value>)
    requires vs != [] && forall i :: 0 <= i < |vs| ==> IsPrintable(vs[i])
    ensures PrintsWell(Enum(vs))
  {
    var texts := ValueTexts(vs);
    forall p | p in texts ensures PostfixAs(p, {Atom(p)}) {
      var i :| 0 <= i < |texts| && texts[i] == p;
      ValuePostfix(vs[i]);
    }
    AtomsRead(texts);
    JoinParses(texts);
    if |texts| >= 2 {
      JoinShowsBar(texts);
    } else {
      assert texts == [texts[0]] && AtomsOf(texts) == {Atom(texts[0])};
    }
  }

  lemma ArrayPrintsWell(items: Schema)
    requires PrintsWell(items)
    ensures PrintsWell(ArrayType(items))
  {
    var item := TsType(items);
    if Contains(item, BAR) {
      ParenthesesPostfix(item, Meaning(items));
    } else {
      ArrayPostfix(item, Meaning(items));
    }
    PostfixPrintsWell(ArrayType(items), ArrayOf(Meaning(items)));
  }

  lemma RecordPrintsWell(extra: Schema)
    requires PrintsWell(extra)
    ensures PrintsWell(RecordType(extra))
  {
    RecordPostfix(TsType(extra), Meaning(extra));
    PostfixPrintsWell(RecordType(extra), RecordOf(Meaning(extra)));
  }

  lemma WordPrintsWell(s: Schema, w: string)
    requires IsWord(w) && TsType(s) == w && Meaning(s) == {Atom(w)}
    ensures PrintsWell(s)
  {
    WordPostfix(w);
    PostfixPrintsWell(s, Atom(w));
  }

  lemma SamePrintsWell(s: Schema, t: Schema)
    requires PrintsWell(s) && TsType(s) == TsType(t) && Meaning(s) == Meaning(t)
    ensures PrintsWell(t)
  {
  }

  lemma OpenRecordIsRecord()
    ensures TsType(RecordType(AnyType)) == TsType(OpenRecordType) && Meaning(RecordType(AnyType)) == Meaning(OpenRecordType)
  {
    assert "Record<string, " + "unknown" + ">" == "Record<string, unknown>";
  }

  lemma OpenRecordPrintsWell()
    ensures PrintsWell(OpenRecordType)
  {
    WordPrintsWell(AnyType, "unknown");
    RecordPrintsWell(AnyType);
    OpenRecordIsRecord();
    SamePrintsWell(RecordType(AnyType), OpenRecordType);
  }

  lemma {:induction false} AllPrintWell(s: Schema)
    requires IsWellFormed(s)
    ensures PrintsWell(s)
    decreases s
  {
    match s {
      case Ref(path) => WordPrintsWell(s, LastSegment(path));
      case Union(ss) =>
        forall i | 0 <= i < |ss| ensures PrintsWell(ss[i]) { AllPrintWell(ss[i]); }
        UnionPrintsWell(ss);
      case Const(value) =>
        ValuePostfix(value);
        PostfixPrintsWell(s, Atom(ValueText(value)));
      case Enum(vs) => EnumPrintsWell(vs);
      case StringType => WordPrintsWell(s, "string");
      case NumberType => WordPrintsWell(s, "number");
      case BooleanType => WordPrintsWell(s, "boolean");
      case NullType => WordPrintsWell(s, "null");
      case ArrayType(items) =>
        AllPrintWell(items);
        ArrayPrintsWell(items);
      case RecordType(extra) =>
        AllPrintWell(extra);
        RecordPrintsWell(extra);
      case OpenRecordType => OpenRecordPrintsWell();
      case AnyType => WordPrintsWell(s, "unknown");
    }
  }

  /** The emitted expression, with brackets binding tighter than bars, denotes the schema's structural translation,
      for every nesting. */
  lemma TypeReadsBack(s: Schema)
    requires IsWellFormed(s)
    ensures ParseType(TsType(s)) == Parsed(Meaning(s), "")
  {
    AllPrintWell(s);
    ParsesWhole(TsType(s), Meaning(s));
  }

  /** Schemas printed alike mean the same, so removing duplicates by their text is safe. */
  lemma SameTextSameMeaning(s: Schema, t: Schema)
    requires IsWellFormed(s) && IsWellFormed(t) && TsType(s) == TsType(t)
    ensures Meaning(s) == Meaning(t)
  {
    TypeReadsBack(s);
    TypeReadsBack(t);
  }

  /** The test for parentheses never misses a union: a type of several members shows a bar. */
  lemma UnionsShowBars(s: Schema)
    requires IsWellFormed(s) && forall m :: Meaning(s) != {m}
    ensures Contains(TsType(s), BAR)
  {
    AllPrintWell(s);
  }

  /** Without its parentheses an array of a union would read as a union with an array in it. */
  lemma ParenthesesAreNeeded(a: string, b: string)
    requires IsWord(a) && IsWord(b)
    ensures ParseType(a + BAR + (b + "[]")) == Parsed({Atom(a)} + {ArrayOf({Atom(b)})}, "")
    ensures Read(a + BAR + (b + "[]")) != {ArrayOf({Atom(a), Atom(b)})}
  {
    WordPostfix(a);
    PostfixParses(a, {Atom(a)});
    WordPostfix(b);
    ArrayPostfix(b, {Atom(b)});
    PostfixParses(b + "[]", {ArrayOf({Atom(b)})});
    BarParses(a, {Atom(a)}, b + "[]", {ArrayOf({Atom(b)})}, "");
    assert a + BAR + (b + "[]") + "" == a + BAR + (b + "[]");
    assert Atom(a) in Read(a + BAR + (b + "[]"));
  }
}
