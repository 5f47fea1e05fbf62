/** JSON text that can stand inside a script element: strings are serialized as section 7 of RFC 8259
    allows, three replacements make the text safe, and a JSON reader still gets the value back. */
module ScriptJson {
  import opened Base
  import opened Text

  /** The part of JSON the graph payload uses. */
  datatype Json = Str(text: string) | Arr(items: seq<Json>) | Obj(fields: seq<Field>)

  datatype Field = Field(key: string, value: Json)

  datatype Token = Punct(c: char) | StrToken(text: string)

  const PUNCTUATION := "{}[],:"
  const LINE_SEPARATOR := '\U{2028}'
  const PARAGRAPH_SEPARATOR := '\U{2029}'

  // ---------------------------------------------------------------- serializing

  function HexDigit(k: nat): char
    requires k < 16
  {
    "0123456789abcdef"[k]
  }

  /** How `json.dumps(..., ensure_ascii=False)` writes one character of a string. */
  function JsonChar(c: char): string {
    if c == '"' then "\\\""
    else if c == '\\' then "\\\\"
    else if c == '\n' then "\\n"
    else if c == '\r' then "\\r"
    else if c == '\t' then "\\t"
    else if c == '\U{0C}' then "\\f"
    else if c == '\U{08}' then "\\b"
    else if c < ' ' then "\\u00" + [HexDigit(c as int / 16), HexDigit(c as int % 16)]
    else [c]
  }

  function Encode(s: string): string {
    if s == "" then "" else JsonChar(s[0]) + Encode(s[1..])
  }

  function TokenText(t: Token): string {
    match t
    case Punct(c) => [c]
    case StrToken(s) => "\"" + Encode(s) + "\""
  }

  function TextOf(ts: seq<Token>): string {
    if ts == [] then "" else TokenText(ts[0]) + TextOf(ts[1..])
  }

  function TokensOf(v: Json): seq<Token>
    decreases v
  {
    match v
    case Str(s) => [StrToken(s)]
    case Arr(items) => [Punct('[')] + ItemTokens(items) + [Punct(']')]
    case Obj(fields) => [Punct('{')] + FieldTokens(fields) + [Punct('}')]
  }

  function ItemTokens(items: seq<Json>): seq<Token>
    decreases items
  {
    if items == [] then []
    else TokensOf(items[0]) + (if |items| == 1 then [] else [Punct(',')] + ItemTokens(items[1..]))
  }

  function FieldTokens(fields: seq<Field>): seq<Token>
    decreases fields
  {
    if fields == [] then []
    else
      [StrToken(fields[0].key), Punct(':')] + TokensOf(fields[0].value) +
      (if |fields| == 1 then [] else [Punct(',')] + FieldTokens(fields[1..]))
  }

  /** `json.dumps(v, ensure_ascii=False, separators=(",", ":"))`. */
  function Dumps(v: Json): string {
    TextOf(TokensOf(v))
  }

  /** The three replacements of `_encode_graph_data_for_html`. */
  function ScriptSafe(s: string): string {
    Replace(Replace(Replace(s, "</", "<\\/"), [LINE_SEPARATOR], "\\u2028"), [PARAGRAPH_SEPARATOR], "\\u2029")
  }

  // ---------------------------------------------------------------- reading

  function HexValue(c: char): Option<nat> {
    if '0' <= c <= '9' then Some(c as int - '0' as int)
    else if 'a' <= c <= 'f' then Some(c as int - 'a' as int + 10)
    else if 'A' <= c <= 'F' then Some(c as int - 'A' as int + 10)
    else None
  }

  /** The code point of four hexadecimal digits, unless they name a surrogate. */
  function FourHex(s: string): Option<char>
    requires |s| >= 4
  {
    var a, b, c, d := HexValue(s[0]), HexValue(s[1]), HexValue(s[2]), HexValue(s[3]);
    if a.None? || b.None? || c.None? || d.None? then None
    else
      var n := 4096 * a.value + 256 * b.value + 16 * c.value + d.value;
      if n < 0xD800 || 0xE000 <= n < 0x10000 then Some(n as char) else None
  }

  /** The character at the head of a string body and how many characters spell it. */
  function ReadUnit(s: string): (unit: Option<(char, nat)>)
    requires s != ""
    ensures unit.Some? ==> 0 < unit.value.1 <= |s|
  {
    if s[0] < ' ' then None
    else if s[0] != '\\' then Some((s[0], 1))
    else if |s| == 1 then None
    else if s[1] in "\"\\/" then Some((s[1], 2))
    else if s[1] == 'n' then Some(('\n', 2))
    else if s[1] == 'r' then Some(('\r', 2))
    else if s[1] == 't' then Some(('\t', 2))
    else if s[1] == 'f' then Some(('\U{0C}', 2))
    else if s[1] == 'b' then Some(('\U{08}', 2))
    else if s[1] == 'u' && |s| >= 6 then
      var c := FourHex(s[2..]);
      if c.None? then None else Some((c.value, 6))
    else None
  }

  /** A string body up to its closing quotation mark, and what follows. */
  function ReadString(s: string): (r: Option<(string, string)>)
    ensures r.Some? ==> |r.value.1| < |s|
    decreases |s|
  {
    if s == "" then None
    else if s[0] == '"' then Some(("", s[1..]))
    else
      var unit := ReadUnit(s);
      if unit.None? then None
      else
        var r := ReadString(s[unit.value.1..]);
        if r.None? then None else Some(([unit.value.0] + r.value.0, r.value.1))
  }

  function Lex(s: string): Option<seq<Token>>
    decreases |s|
  {
    if s == "" then Some([])
    else if s[0] == '"' then
      var str := ReadString(s[1..]);
      if str.None? then None
      else
        var rest := Lex(str.value.1);
        if rest.None? then None else Some([StrToken(str.value.0)] + rest.value)
    else if s[0] in PUNCTUATION then
      var rest := Lex(s[1..]);
      if rest.None? then None else Some([Punct(s[0])] + rest.value)
    else None
  }

  function ParseValue(ts: seq<Token>): (r: Option<(Json, seq<Token>)>)
    ensures r.Some? ==> |r.value.1| < |ts|
    decreases |ts|, 0
  {
    if ts == [] then None
    else if ts[0].StrToken? then Some((Str(ts[0].text), ts[1..]))
    else if ts[0] == Punct('[') then
      if |ts| > 1 && ts[1] == Punct(']') then Some((Arr([]), ts[2..]))
      else
        var r := ParseItems(ts[1..]);
        if r.None? then None else Some((Arr(r.value.0), r.value.1))
    else if ts[0] == Punct('{') then
      if |ts| > 1 && ts[1] == Punct('}') then Some((Obj([]), ts[2..]))
      else
        var r := ParseFields(ts[1..]);
        if r.None? then None else Some((Obj(r.value.0), r.value.1))
    else None
  }

  function ParseItems(ts: seq<Token>): (r: Option<(seq<Json>, seq<Token>)>)
    ensures r.Some? ==> |r.value.1| < |ts|
    decreases |ts|, 1
  {
    var v := ParseValue(ts);
    if v.None? || v.value.1 == [] then None
    else if v.value.1[0] == Punct(']') then Some(([v.value.0], v.value.1[1..]))
    else if v.value.1[0] == Punct(',') then
      var r := ParseItems(v.value.1[1..]);
      if r.None? then None else Some(([v.value.0] + r.value.0, r.value.1))
    else None
  }

  function ParseFields(ts: seq<Token>): (r: Option<(seq<Field>, seq<Token>)>)
    ensures r.Some? ==> |r.value.1| < |ts|
    decreases |ts|, 1
  {
    if |ts| < 2 || !ts[0].StrToken? || ts[1] != Punct(':') then None
    else
      var v := ParseValue(ts[2..]);
      if v.None? || v.value.1 == [] then None
      else if v.value.1[0] == Punct('}') then Some(([Field(ts[0].text, v.value.0)], v.value.1[1..]))
      else if v.value.1[0] == Punct(',') then
        var r := ParseFields(v.value.1[1..]);
        if r.None? then None else Some(([Field(ts[0].text, v.value.0)] + r.value.0, r.value.1))
      else None
  }

  /** A JSON reader. */
  function Loads(s: string): Option<Json> {
    var ts := Lex(s);
    if ts.None? then None
    else
      var r := ParseValue(ts.value);
      if r.None? || r.value.1 != [] then None else Some(r.value.0)
  }

  // ---------------------------------------------------------------- the replacements, character by character

  /** What the replacements make of character `c`, given whether a `<` stands right before it. */
  function SafeChar(afterLt: bool, c: char): string {
    if c == '/' && afterLt then "\\/"
    else if c == LINE_SEPARATOR then "\\u2028"
    else if c == PARAGRAPH_SEPARATOR then "\\u2029"
    else [c]
  }

  function Safe(afterLt: bool, s: string): string
    decreases |s|
  {
    if s == "" then ""
    else SafeChar(afterLt, s[0]) + Safe(s[0] == '<', s[1..])
  }

  function Slashes(afterLt: bool, s: string): string
    decreases |s|
  {
    if s == "" then "" else (if s[0] == '/' && afterLt then "\\/" else [s[0]]) + Slashes(s[0] == '<', s[1..])
  }

  lemma {:induction false} ReplaceIsSlashes(s: string)
    ensures Replace(s, "</", "<\\/") == Slashes(false, s)
    decreases |s|
  {
    if s != "" {
      if StartsWith(s, "</") {
        assert s[0] == s[..2][0] == '<' && s[1] == s[..2][1] == '/';
        assert s[1..][1..] == s[2..];
        ReplaceIsSlashes(s[2..]);
        assert Slashes(true, s[1..]) == "\\/" + Slashes(false, s[2..]);
      } else {
        ReplaceIsSlashes(s[1..]);
        assert s[0] == '<' && |s| > 1 ==> s[..2] == [s[0], s[1]];
        assert Slashes(s[0] == '<', s[1..]) == Slashes(false, s[1..]);
      }
    }
  }

  function Separators(s: string): string {
    Replace(Replace(s, [LINE_SEPARATOR], "\\u2028"), [PARAGRAPH_SEPARATOR], "\\u2029")
  }

  lemma SeparatorsAppend(s: string, t: string)
    ensures Separators(s + t) == Separators(s) + Separators(t)
  {
    ReplaceCharAppend(s, t, LINE_SEPARATOR, "\\u2028");
    ReplaceCharAppend(Replace(s, [LINE_SEPARATOR], "\\u2028"), Replace(t, [LINE_SEPARATOR], "\\u2028"),
                              PARAGRAPH_SEPARATOR, "\\u2029");
  }

  lemma SeparatorsOfChar(afterLt: bool, c: char)
    ensures Separators(if c == '/' && afterLt then "\\/" else [c]) == SafeChar(afterLt, c)
  {
    if c == '/' && afterLt {
      Unreplaced("\\/", LINE_SEPARATOR, "\\u2028");
      Unreplaced("\\/", PARAGRAPH_SEPARATOR, "\\u2029");
    } else if c == LINE_SEPARATOR {
      ReplaceCharHead(c, "", LINE_SEPARATOR, "\\u2028");
      assert [c] + "" == [c];
      assert Replace([c], [LINE_SEPARATOR], "\\u2028") == "\\u2028";
      Unreplaced("\\u2028", PARAGRAPH_SEPARATOR, "\\u2029");
    } else {
      Unreplaced([c], LINE_SEPARATOR, "\\u2028");
      ReplaceCharHead(c, "", PARAGRAPH_SEPARATOR, "\\u2029");
      assert [c] + "" == [c];
    }
  }

  lemma {:induction false} SeparatorsOfSlashes(afterLt: bool, s: string)
    ensures Separators(Slashes(afterLt, s)) == Safe(afterLt, s)
    decreases |s|
  {
    if s != "" {
      SeparatorsOfSlashes(s[0] == '<', s[1..]);
      SeparatorsAppend(if s[0] == '/' && afterLt then "\\/" else [s[0]], Slashes(s[0] == '<', s[1..]));
      SeparatorsOfChar(afterLt, s[0]);
    }
  }

  lemma ScriptSafeIsSafe(s: string)
    ensures ScriptSafe(s) == Safe(false, s)
  {
    ReplaceIsSlashes(s);
    SeparatorsOfSlashes(false, s);
  }

  lemma {:induction false} SafeAppend(afterLt: bool, s: string, t: string)
    requires s != ""
    ensures Safe(afterLt, s + t) == Safe(afterLt, s) + Safe(s[|s| - 1] == '<', t)
    decreases |s|
  {
    assert (s + t)[1..] == s[1..] + t;
    if |s| > 1 {
      SafeAppend(s[0] == '<', s[1..], t);
    } else {
      assert s[1..] + t == t;
    }
  }

  /** No `<` directly before a `/`. */
  ghost predicate TagFree(s: string) {
    forall i :: 0 <= i < |s| - 1 ==> s[i] == '<' ==> s[i + 1] != '/'
  }

  lemma {:induction false} TagFreeMeaning(s: string)
    requires TagFree(s)
    ensures !Contains(s, "</")
    decreases |s|
  {
    if s != "" {
      TagFreeMeaning(s[1..]);
      if |s| > 1 {
        DiffersAt(s, "</", if s[0] == '<' then 1 else 0);
      }
    }
  }

  /** Nothing the replacements produce contains what they remove. */
  lemma {:induction false} SafeIsSafe(afterLt: bool, s: string)
    ensures LINE_SEPARATOR !in Safe(afterLt, s) && PARAGRAPH_SEPARATOR !in Safe(afterLt, s)
    ensures afterLt && Safe(afterLt, s) != "" ==> Safe(afterLt, s)[0] != '/'
    ensures TagFree(Safe(afterLt, s))
    decreases |s|
  {
    if s != "" {
      SafeIsSafe(s[0] == '<', s[1..]);
    }
  }

  // ---------------------------------------------------------------- reading the safe text back

  lemma HexDigitRead(k: nat)
    requires k < 16
    ensures HexValue(HexDigit(k)) == Some(k)
  {}

  /** Whatever the replacements do to a serialized character, it reads back as that character. */
  lemma SafeJsonCharReads(afterLt: bool, c: char, rest: string)
    ensures var unit := Safe(afterLt, JsonChar(c));
            && unit != "" && unit[0] != '"'
            && ReadUnit(unit + rest) == Some((c, |unit|))
    ensures (JsonChar(c)[|JsonChar(c)| - 1] == '<') == (c == '<')
  {
    var text := JsonChar(c);
    if |text| == 1 {
      assert text[1..] == "";
      assert Safe(afterLt, text) == SafeChar(afterLt, c);
      var unit := SafeChar(afterLt, c);
      if |unit| == 6 {
        assert (unit + rest)[2..][..4] == unit[2..];
      }
    } else if |text| == 2 {
      Untouched(afterLt, text);
    } else {
      ControlCharReads(afterLt, c, rest);
    }
  }

  lemma ControlCharReads(afterLt: bool, c: char, rest: string)
    requires |JsonChar(c)| == 6
    ensures Safe(afterLt, JsonChar(c)) == JsonChar(c)
    ensures ReadUnit(JsonChar(c) + rest) == Some((c, 6))
    ensures JsonChar(c)[5] != '<' && JsonChar(c)[0] == '\\'
  {
    var text := JsonChar(c);
    HexDigitRead(c as int / 16);
    HexDigitRead(c as int % 16);
    assert text == "\\u00" + [HexDigit(c as int / 16), HexDigit(c as int % 16)];
    Untouched(afterLt, text);
    var after := (text + rest)[2..];
    assert after[0] == '0' && after[1] == '0' && after[2] == text[4] && after[3] == text[5];
  }

  lemma {:induction false} Untouched(afterLt: bool, s: string)
    requires '/' !in s && LINE_SEPARATOR !in s && PARAGRAPH_SEPARATOR !in s
    ensures Safe(afterLt, s) == s
    decreases |s|
  {
    if s != "" {
      Untouched(s[0] == '<', s[1..]);
      assert s == [s[0]] + s[1..];
    }
  }

  lemma ReadStep(unit: string, after: string, c: char, s: string, rest: string)
    requires unit != "" && unit[0] != '"' && ReadUnit(unit + after) == Some((c, |unit|))
    requires ReadString(after) == Some((s, rest))
    ensures ReadString(unit + after) == Some(([c] + s, rest))
  {
    assert (unit + after)[|unit|..] == after;
  }

  lemma CharStep(afterLt: bool, c: char, after: string, s: string, rest: string)
    requires ReadString(after) == Some((s, rest))
    ensures ReadString(Safe(afterLt, JsonChar(c)) + after) == Some(([c] + s, rest))
  {
    SafeJsonCharReads(afterLt, c, after);
    ReadStep(Safe(afterLt, JsonChar(c)), after, c, s, rest);
  }

  lemma SafeCharStep(afterLt: bool, c: char, tail: string, s: string, rest: string)
    requires ReadString(Safe(c == '<', tail) + rest) == Some((s, rest))
    ensures ReadString(Safe(afterLt, JsonChar(c) + tail) + rest) == Some(([c] + s, rest))
  {
    var after := Safe(c == '<', tail) + rest;
    CharStep(afterLt, c, after, s, rest);
    SafeJsonCharReads(afterLt, c, after);
    SafeAppend(afterLt, JsonChar(c), tail);
    Reassociate(Safe(afterLt, JsonChar(c)), Safe(c == '<', tail), rest);
  }

  lemma Reassociate(a: string, b: string, c: string)
    ensures a + b + c == a + (b + c)
  {}

  lemma {:induction false} SafeStringReads(afterLt: bool, s: string, rest: string)
    ensures ReadString(Safe(afterLt, Encode(s) + "\"") + rest) == Some((s, rest))
    decreases |s|
  {
    if s == "" {
      assert Encode(s) + "\"" == "\"";
      Untouched(afterLt, "\"");
      assert ("\"" + rest)[1..] == rest;
    } else {
      var c, tail := s[0], Encode(s[1..]) + "\"";
      assert Encode(s) + "\"" == JsonChar(c) + tail;
      SafeStringReads(c == '<', s[1..], rest);
      SafeCharStep(afterLt, c, tail, s[1..], rest);
      assert s == [c] + s[1..];
    }
  }

  ghost predicate WellFormed(ts: seq<Token>) {
    forall t :: t in ts && t.Punct? ==> t.c in PUNCTUATION
  }

  lemma {:induction false} SafeTextLexes(ts: seq<Token>)
    requires WellFormed(ts)
    ensures Lex(Safe(false, TextOf(ts))) == Some(ts)
  {
    if ts != [] {
      SafeTextLexes(ts[1..]);
      var rest := TextOf(ts[1..]);
      assert ts == [ts[0]] + ts[1..];
      SafeAppend(false, TokenText(ts[0]), rest);
      match ts[0] {
        case Punct(c) =>
          assert c != '<' && c != '"';
          Untouched(false, [c]);
          assert ([c] + Safe(false, rest))[1..] == Safe(false, rest);
        case StrToken(s) =>
          StrTokenLexes(s, rest);
      }
    }
  }

  lemma StrTokenLexes(s: string, rest: string)
    ensures var text := Safe(false, TokenText(StrToken(s)) + rest);
            text != "" && text[0] == '"' && ReadString(text[1..]) == Some((s, Safe(false, rest)))
  {
    var body := Encode(s) + "\"";
    assert TokenText(StrToken(s)) + rest == "\"" + (body + rest);
    SafeAppend(false, "\"", body + rest);
    SafeAppend(false, body, rest);
    Untouched(false, "\"");
    SafeStringReads(false, s, Safe(false, rest));
    assert ("\"" + Safe(false, body + rest))[1..] == Safe(false, body + rest);
  }

  // ---------------------------------------------------------------- tokens to values

  lemma {:induction false} TokensWellFormed(v: Json)
    ensures WellFormed(TokensOf(v)) && TokensOf(v) != []
    ensures TokensOf(v)[0] in [Punct('['), Punct('{')] || TokensOf(v)[0].StrToken?
    decreases v
  {
    match v {
      case Str(_) =>
      case Arr(items) => ItemTokensWellFormed(items);
      case Obj(fields) => FieldTokensWellFormed(fields);
    }
  }

  lemma {:induction false} ItemTokensWellFormed(items: seq<Json>)
    ensures WellFormed(ItemTokens(items))
    decreases items
  {
    if items != [] {
      TokensWellFormed(items[0]);
      if |items| > 1 { ItemTokensWellFormed(items[1..]); }
    }
  }

  lemma {:induction false} FieldTokensWellFormed(fields: seq<Field>)
    ensures WellFormed(FieldTokens(fields))
    decreases fields
  {
    if fields != [] {
      TokensWellFormed(fields[0].value);
      if |fields| > 1 { FieldTokensWellFormed(fields[1..]); }
    }
  }

  lemma {:induction false} TokensParse(v: Json, rest: seq<Token>)
    ensures ParseValue(TokensOf(v) + rest) == Some((v, rest))
    decreases v, 1
  {
    match v {
      case Str(s) => assert (TokensOf(v) + rest)[1..] == rest;
      case Arr(items) => ArrParse(items, rest);
      case Obj(fields) => ObjParse(fields, rest);
    }
  }

  lemma {:induction false} ArrParse(items: seq<Json>, rest: seq<Token>)
    ensures ParseValue(TokensOf(Arr(items)) + rest) == Some((Arr(items), rest))
    decreases items, 2
  {
    var ts := TokensOf(Arr(items)) + rest;
    assert ts[1..] == ItemTokens(items) + [Punct(']')] + rest;
    if items == [] {
      assert ts[2..] == rest;
    } else {
      TokensWellFormed(items[0]);
      assert ts[1] == TokensOf(items[0])[0];
      ItemsParse(items, rest);
    }
  }

  lemma LastItem(ts: seq<Token>, v: Json, rest: seq<Token>)
    requires ParseValue(ts) == Some((v, [Punct(']')] + rest))
    ensures ParseItems(ts) == Some(([v], rest))
  {
    assert ([Punct(']')] + rest)[1..] == rest;
  }

  lemma NextItem(ts: seq<Token>, v: Json, after: seq<Token>, vs: seq<Json>, rest: seq<Token>)
    requires ParseValue(ts) == Some((v, [Punct(',')] + after)) && ParseItems(after) == Some((vs, rest))
    ensures ParseItems(ts) == Some(([v] + vs, rest))
  {
    assert ([Punct(',')] + after)[1..] == after;
  }

  lemma {:induction false} ItemsParse(items: seq<Json>, rest: seq<Token>)
    requires items != []
    ensures ParseItems(ItemTokens(items) + [Punct(']')] + rest) == Some((items, rest))
    decreases items, 1
  {
    var ts := ItemTokens(items) + [Punct(']')] + rest;
    if |items| == 1 {
      var tail := [Punct(']')] + rest;
      assert ts == TokensOf(items[0]) + tail;
      TokensParse(items[0], tail);
      LastItem(ts, items[0], rest);
      assert items == [items[0]];
    } else {
      var after := ItemTokens(items[1..]) + [Punct(']')] + rest;
      assert ts == TokensOf(items[0]) + ([Punct(',')] + after);
      TokensParse(items[0], [Punct(',')] + after);
      ItemsParse(items[1..], rest);
      NextItem(ts, items[0], after, items[1..], rest);
      assert items == [items[0]] + items[1..];
    }
  }

  lemma {:induction false} ObjParse(fields: seq<Field>, rest: seq<Token>)
    ensures ParseValue(TokensOf(Obj(fields)) + rest) == Some((Obj(fields), rest))
    decreases fields, 2
  {
    var ts := TokensOf(Obj(fields)) + rest;
    assert ts[1..] == FieldTokens(fields) + ([Punct('}')] + rest);
    if fields == [] {
      assert ts[2..] == rest;
    } else {
      FieldsParse(fields, rest);
    }
  }

  lemma LastField(ts: seq<Token>, f: Field, rest: seq<Token>)
    requires |ts| >= 2 && ts[0] == StrToken(f.key) && ts[1] == Punct(':')
    requires ParseValue(ts[2..]) == Some((f.value, [Punct('}')] + rest))
    ensures ParseFields(ts) == Some(([f], rest))
  {
    assert ([Punct('}')] + rest)[1..] == rest;
  }

  lemma NextField(ts: seq<Token>, f: Field, after: seq<Token>, fs: seq<Field>, rest: seq<Token>)
    requires |ts| >= 2 && ts[0] == StrToken(f.key) && ts[1] == Punct(':')
    requires ParseValue(ts[2..]) == Some((f.value, [Punct(',')] + after)) && ParseFields(after) == Some((fs, rest))
    ensures ParseFields(ts) == Some(([f] + fs, rest))
  {
    assert ([Punct(',')] + after)[1..] == after;
  }

  lemma SplitOff(ts: seq<Token>, head: seq<Token>, v: seq<Token>, more: seq<Token>, end: seq<Token>)
    requires ts == head + v + more && |head| == 2
    ensures |ts + end| >= 2 && (ts + end)[..2] == head && (ts + end)[2..] == v + (more + end)
  {}

  lemma {:induction false} FieldsParse(fields: seq<Field>, rest: seq<Token>)
    requires fields != []
    ensures ParseFields(FieldTokens(fields) + ([Punct('}')] + rest)) == Some((fields, rest))
    decreases fields, 1
  {
    var end := [Punct('}')] + rest;
    if |fields| == 1 {
      TokensParse(fields[0].value, end);
      OneFieldParses(fields[0], rest);
      assert fields == [fields[0]];
    } else {
      var after := FieldTokens(fields[1..]) + end;
      TokensParse(fields[0].value, [Punct(',')] + after);
      FieldsParse(fields[1..], rest);
      ManyFieldsParse(fields, rest, after);
    }
  }

  lemma OneFieldParses(f: Field, rest: seq<Token>)
    requires ParseValue(TokensOf(f.value) + ([Punct('}')] + rest)) == Some((f.value, [Punct('}')] + rest))
    ensures ParseFields(FieldTokens([f]) + ([Punct('}')] + rest)) == Some(([f], rest))
  {
    var end := [Punct('}')] + rest;
    var ts := FieldTokens([f]);
    SplitOff(ts, [StrToken(f.key), Punct(':')], TokensOf(f.value), [], end);
    assert [] + end == end;
    TwoInFront(ts + end, StrToken(f.key), Punct(':'));
    LastField(ts + end, f, rest);
  }

  lemma {:induction false} ManyFieldsParse(fields: seq<Field>, rest: seq<Token>, after: seq<Token>)
    requires |fields| > 1 && after == FieldTokens(fields[1..]) + ([Punct('}')] + rest)
    requires ParseValue(TokensOf(fields[0].value) + ([Punct(',')] + after)) ==
             Some((fields[0].value, [Punct(',')] + after))
    requires ParseFields(after) == Some((fields[1..], rest))
    ensures ParseFields(FieldTokens(fields) + ([Punct('}')] + rest)) == Some((fields, rest))
  {
    var f, end, others := fields[0], [Punct('}')] + rest, FieldTokens(fields[1..]);
    var ts := FieldTokens(fields);
    SplitOff(ts, [StrToken(f.key), Punct(':')], TokensOf(f.value), [Punct(',')] + others, end);
    assert [Punct(',')] + others + end == [Punct(',')] + after;
    TwoInFront(ts + end, StrToken(f.key), Punct(':'));
    NextField(ts + end, f, after, fields[1..], rest);
    assert fields == [f] + fields[1..];
  }

  lemma TwoInFront(ts: seq<Token>, a: Token, b: Token)
    requires |ts| >= 2 && ts[..2] == [a, b]
    ensures ts[0] == a && ts[1] == b
  {
    assert ts[0] == ts[..2][0] && ts[1] == ts[..2][1];
  }

  /** The text placed in the script element contains nothing that could end the element or break a
      line, and a JSON reader gets exactly the serialized value out of it. */
  lemma ScriptJsonRoundTrip(v: Json)
    ensures var text := ScriptSafe(Dumps(v));
            && !Contains(text, "</") && LINE_SEPARATOR !in text && PARAGRAPH_SEPARATOR !in text
            && Loads(text) == Some(v)
  {
    var ts := TokensOf(v);
    ScriptSafeIsSafe(Dumps(v));
    SafeIsSafe(false, Dumps(v));
    TagFreeMeaning(Safe(false, Dumps(v)));
    TokensWellFormed(v);
    SafeTextLexes(ts);
    TokensParse(v, []);
    assert ts + [] == ts;
  }
}
