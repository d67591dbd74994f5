/** The permission expressions as text, and what Python's `re` makes of them (src/lumi/contracts/policy.py,
    lines 119-126 and 237-258): `re.escape`, the anchored alternation, and `re.match`. */
module RegexText {
  import opened Common

  // ----- escaping ---------------------------------------------------------------------------

  /** The characters `re.escape` puts a backslash before. */
  predicate IsEscaped(c: char) {
    c in "()[]{}?*+-|^$\\.&~# \t\n\r" || c == '\U{0B}' || c == '\U{0C}'
  }

  /** The characters that mean something else than themselves in an expression. */
  predicate IsMeta(c: char) {
    c in "()[]{}?*+|^$\\."
  }

  predicate IsAlphanumeric(c: char) {
    'a' <= c <= 'z' || 'A' <= c <= 'Z' || '0' <= c <= '9'
  }

  function Escape(k: string): string {
    if k == "" then "" else (if IsEscaped(k[0]) then ['\\', k[0]] else [k[0]]) + Escape(k[1..])
  }

  /** The escaped alternatives with bars between them. */
  function Bars(keys: seq<string>): string
    requires keys != []
  {
    if |keys| == 1 then Escape(keys[0]) else Escape(keys[0]) + "|" + Bars(keys[1..])
  }

  // ----- sorted(set(keys)) ---------------------------------------------------------------------

  function InsertKey(k: string, keys: seq<string>): seq<string> {
    if keys == [] || Before(k, keys[0]) then [k] + keys
    else if k == keys[0] then keys
    else [keys[0]] + InsertKey(k, keys[1..])
  }

  function SortedSet(keys: seq<string>): seq<string> {
    if keys == [] then [] else InsertKey(keys[0], SortedSet(keys[1..]))
  }

  lemma {:induction false} InsertKeyHas(k: string, keys: seq<string>, x: string)
    ensures x in InsertKey(k, keys) <==> x == k || x in keys
  {
    if keys != [] && !Before(k, keys[0]) && k != keys[0] {
      InsertKeyHas(k, keys[1..], x);
      assert keys == [keys[0]] + keys[1..];
    }
  }

  lemma {:induction false} SortedSetHas(keys: seq<string>, x: string)
    ensures x in SortedSet(keys) <==> x in keys
  {
    if keys != [] {
      SortedSetHas(keys[1..], x);
      InsertKeyHas(keys[0], SortedSet(keys[1..]), x);
      assert keys == [keys[0]] + keys[1..];
    }
  }

  lemma {:induction false} InsertKeyAscends(k: string, keys: seq<string>)
    requires Ascends(keys)
    ensures Ascends(InsertKey(k, keys))
    ensures InsertKey(k, keys) != [] && InsertKey(k, keys)[0] == if keys == [] || Before(k, keys[0]) then k else keys[0]
  {
    if keys != [] && !Before(k, keys[0]) && k != keys[0] {
      BeforeIsTotal(k, keys[0]);
      TailAscends(keys);
      InsertKeyAscends(k, keys[1..]);
      var rest := InsertKey(k, keys[1..]);
      assert Before(keys[0], rest[0]);
      HeadAscends(keys[0], rest);
    } else if keys == [] || Before(k, keys[0]) {
      HeadAscends(k, keys);
    }
  }

  /** Each key is before the next. */
  ghost predicate Ascends(keys: seq<string>) {
    forall i :: 0 <= i < |keys| - 1 ==> Before(keys[i], keys[i + 1])
  }

  lemma TailAscends(keys: seq<string>)
    requires keys != [] && Ascends(keys)
    ensures Ascends(keys[1..])
  {
    forall i | 0 <= i < |keys[1..]| - 1 ensures Before(keys[1..][i], keys[1..][i + 1]) {
      assert keys[1..][i] == keys[i + 1] && keys[1..][i + 1] == keys[i + 1 + 1];
    }
  }

  lemma HeadAscends(k: string, keys: seq<string>)
    requires Ascends(keys) && (keys != [] ==> Before(k, keys[0]))
    ensures Ascends([k] + keys)
  {
    var all := [k] + keys;
    forall i | 0 <= i < |all| - 1 ensures Before(all[i], all[i + 1]) {
      if i > 0 { assert all[i] == keys[i - 1] && all[i + 1] == keys[i]; }
    }
  }

  /** The alternatives are written in ascending order. */
  lemma {:induction false} SortedSetAscends(keys: seq<string>)
    ensures Ascends(SortedSet(keys))
  {
    if keys != [] {
      SortedSetAscends(keys[1..]);
      InsertKeyAscends(keys[0], SortedSet(keys[1..]));
    }
  }

  /** The text of the anchored alternation of these keys. */
  function Alternation(keys: seq<string>): string {
    if keys == [] then "^$"
    else
      SortedSetHas(keys, keys[0]);
      "^(" + Bars(SortedSet(keys)) + ")$"
  }

  const ANYTHING := ".*"

  // ----- reading an expression -------------------------------------------------------------------

  /** The expressions that occur: one of some literals between anchors, or anything at all. */
  datatype Regex = Anchored(alternatives: seq<string>) | Anything

  /** Reads alternatives up to the closing parenthesis, after `read` of the present one; gives them with the text
      after it. A metacharacter that is not escaped, or an escaped letter, is outside these expressions. */
  function ReadAlternatives(text: string, read: string): Option<(seq<string>, string)> {
    if text == "" then None
    else if text[0] == ')' then Some(([read], text[1..]))
    else if text[0] == '|' then
      match ReadAlternatives(text[1..], "")
      case None => None
      case Some((alternatives, rest)) => Some(([read] + alternatives, rest))
    else if text[0] == '\\' then
      if |text| < 2 || IsAlphanumeric(text[1]) then None else ReadAlternatives(text[2..], read + [text[1]])
    else if IsMeta(text[0]) then None
    else ReadAlternatives(text[1..], read + [text[0]])
  }

  function Read(text: string): Option<Regex> {
    if text == ".*" then Some(Anything)
    else if text == "^$" then Some(Anchored([""]))
    else if |text| < 2 || text[0] != '^' || text[1] != '(' then None
    else
      match ReadAlternatives(text[2..], "")
      case None => None
      case Some((alternatives, rest)) => if rest == "$" then Some(Anchored(alternatives)) else None
  }

  /** `re.match` from the start of the key; the dollar also matches before a newline that ends it. */
  predicate RegexMatches(r: Regex, key: string) {
    match r
    case Anything => true
    case Anchored(alternatives) =>
      key in alternatives || (key != "" && key[|key| - 1] == '\n' && key[..|key| - 1] in alternatives)
  }

  /** Whether the expression can be read and matches. */
  predicate TextMatches(text: string, key: string) {
    var r := Read(text);
    r.Some? && RegexMatches(r.value, key)
  }

  lemma EscapedIsRead(c: char, rest: string, read: string)
    ensures ReadAlternatives((if IsEscaped(c) then ['\\', c] else [c]) + rest, read) == ReadAlternatives(rest, read + [c])
  {
    if IsEscaped(c) {
      var text := ['\\', c] + rest;
      assert text[2..] == rest && text[0] == '\\' && text[1] == c;
    } else {
      assert ([c] + rest)[1..] == rest;
    }
  }

  /** Reading an escaped key reads that key. */
  lemma {:induction false} EscapeIsRead(k: string, rest: string, read: string)
    ensures ReadAlternatives(Escape(k) + rest, read) == ReadAlternatives(rest, read + k)
  {
    if k == "" {
      assert Escape(k) + rest == rest && read + k == read;
    } else {
      var head := if IsEscaped(k[0]) then ['\\', k[0]] else [k[0]];
      assert Escape(k) + rest == head + (Escape(k[1..]) + rest);
      EscapedIsRead(k[0], Escape(k[1..]) + rest, read);
      EscapeIsRead(k[1..], rest, read + [k[0]]);
      assert read + [k[0]] + k[1..] == read + k;
    }
  }

  lemma CloseIsRead(read: string)
    ensures ReadAlternatives(")$", read) == Some(([read], "$"))
  {
    assert ")$"[0] == ')' && ")$"[1..] == "$";
  }

  lemma BarIsRead(rest: string, read: string, alternatives: seq<string>, after: string)
    requires ReadAlternatives(rest, "") == Some((alternatives, after))
    ensures ReadAlternatives("|" + rest, read) == Some(([read] + alternatives, after))
  {
    var text := "|" + rest;
    assert text[0] == '|' && text[1..] == rest;
  }

  lemma FirstIsRead(k: string, rest: string)
    ensures ReadAlternatives(Escape(k) + rest, "") == ReadAlternatives(rest, k)
  {
    EscapeIsRead(k, rest, "");
    assert "" + k == k;
  }

  lemma {:induction false} BarsAreRead(keys: seq<string>)
    requires keys != []
    ensures ReadAlternatives(Bars(keys) + ")$", "") == Some((keys, "$"))
  {
    if |keys| == 1 {
      FirstIsRead(keys[0], ")$");
      CloseIsRead(keys[0]);
      assert keys == [keys[0]];
    } else {
      var tail := Bars(keys[1..]) + ")$";
      BarsAreRead(keys[1..]);
      BarIsRead(tail, keys[0], keys[1..], "$");
      FirstIsRead(keys[0], "|" + tail);
      assert Bars(keys) + ")$" == Escape(keys[0]) + ("|" + tail);
      assert keys == [keys[0]] + keys[1..];
    }
  }

  /** The alternation reads back as exactly the keys it was made from. */
  lemma AlternationIsRead(keys: seq<string>)
    requires keys != []
    ensures Read(Alternation(keys)) == Some(Anchored(SortedSet(keys)))
  {
    SortedSetHas(keys, keys[0]);
    var sorted := SortedSet(keys);
    var text := "^(" + Bars(sorted) + ")$";
    BarsAreRead(sorted);
    assert text[0] == '^' && text[1] == '(' && text[2..] == Bars(sorted) + ")$";
  }

  /** The alternation of some keys matches exactly those keys, and each with a newline after it. */
  lemma AlternationMatches(keys: seq<string>, key: string)
    requires keys != []
    ensures TextMatches(Alternation(keys), key) <==>
            key in keys || (key != "" && key[|key| - 1] == '\n' && key[..|key| - 1] in keys)
  {
    AlternationIsRead(keys);
    SortedSetHas(keys, key);
    if key != "" {
      SortedSetHas(keys, key[..|key| - 1]);
    }
  }

  /** Of no keys at all, it matches the empty key. */
  lemma EmptyAlternationMatches(key: string)
    ensures TextMatches(Alternation([]), key) <==> key == "" || key == "\n"
  {
    if key != "" && key[..|key| - 1] == "" {
      assert key == [key[0]];
    }
  }
}
