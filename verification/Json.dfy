/**
 JSON values, the compact printer with sorted keys that `json.dumps` is, and the
 parser `json.loads` that undoes it (RFC 8259, sections 3 to 7).
 */
module Json {
  import opened Options
  import opened JsonText

  const DELIMITERS := ",]}"

  /** A float is kept as the token that Python's `repr` gives it; no integer has such a token. */
  predicate IsFloatToken(t: string) {
    && t != "" && ParseInt(t).None? && Opens(t[0])
    && forall i :: 0 <= i < |t| ==> t[i] !in DELIMITERS && ' ' < t[i] <= '~'
  }

  /** A value that opens with this character can only be a number. */
  predicate Opens(c: char) {
    c != '\"' && c != '[' && c != '{' && c != 't' && c != 'f' && c != 'n' && c !in DELIMITERS
  }

  type FloatToken = t: string | IsFloatToken(t) witness FloatExample()

  function FloatExample(): (t: string)
    ensures IsFloatToken(t)
  {
    "0.5"
  }

  // A dict is a map: neither its equality nor a sorted dump sees the insertion order.
  datatype Json =
    | Null
    | Bool(b: bool)
    | Int(n: int)
    | Float(token: FloatToken)
    | Str(s: string)
    | Arr(items: seq<Json>)
    | Obj(fields: map<string, Json>)

  /** A message between agents. */
  type Payload = map<string, Json>

  // ---------------------------------------------------------------- sorted keys

  /** The order of Python's `str`: by code point, a prefix first. */
  predicate Before(a: string, b: string) {
    if b == "" then false
    else if a == "" then true
    else a[0] < b[0] || (a[0] == b[0] && Before(a[1..], b[1..]))
  }

  lemma {:induction false} BeforeIsTotal(a: string, b: string)
    ensures a != b ==> (Before(a, b) <==> !Before(b, a))
    ensures !Before(a, a)
  {
    if a != "" {
      BeforeIsTotal(a[1..], a[1..]);
      if b != "" {
        BeforeIsTotal(a[1..], b[1..]);
        assert a == [a[0]] + a[1..] && b == [b[0]] + b[1..];
      }
    }
  }

  lemma {:induction false} BeforeIsTransitive(a: string, b: string, c: string)
    requires Before(a, b) && Before(b, c)
    ensures Before(a, c)
  {
    if a != "" && a[0] == b[0] && b[0] == c[0] {
      BeforeIsTransitive(a[1..], b[1..], c[1..]);
    }
  }

  ghost predicate IsFirst(k: string, keys: set<string>) {
    k in keys && forall j :: j in keys && j != k ==> Before(k, j)
  }

  lemma {:induction false} FirstExists(keys: set<string>)
    requires keys != {}
    ensures exists k :: IsFirst(k, keys)
  {
    var k :| k in keys;
    if keys == {k} {
      assert IsFirst(k, keys);
    } else {
      FirstExists(keys - {k});
      var f :| IsFirst(f, keys - {k});
      BeforeIsTotal(k, f);
      if Before(f, k) {
        assert IsFirst(f, keys);
      } else {
        forall j | j in keys && j != k ensures Before(k, j) {
          if j != f {
            BeforeIsTransitive(k, f, j);
          }
        }
        assert IsFirst(k, keys);
      }
    }
  }

  ghost function SortedKeys(keys: set<string>): (sorted: seq<string>)
    ensures forall i :: 0 <= i < |sorted| ==> sorted[i] in keys
    ensures forall k :: k in keys ==> k in sorted
    ensures forall i, j :: 0 <= i < j < |sorted| ==> Before(sorted[i], sorted[j])
  {
    if keys == {} then []
    else
      FirstExists(keys);
      var k :| IsFirst(k, keys);
      [k] + SortedKeys(keys - {k})
  }

  lemma AscendingIsDistinct(keys: seq<string>)
    requires forall i, j :: 0 <= i < j < |keys| ==> Before(keys[i], keys[j])
    ensures forall i, j :: 0 <= i < j < |keys| ==> keys[i] != keys[j]
  {
    forall i, j | 0 <= i < j < |keys| ensures keys[i] != keys[j] {
      BeforeIsTotal(keys[i], keys[i]);
    }
  }

  /** What the order means: at the first difference the smaller code point comes first, and a prefix comes first. */
  lemma {:induction false} BeforeIff(a: string, b: string)
    ensures Before(a, b)
            <==> exists n: nat :: n <= |a| && n < |b| && a[..n] == b[..n] && (n == |a| || a[n] < b[n])
  {
    if a != "" && b != "" && a[0] == b[0] {
      BeforeIff(a[1..], b[1..]);
      if n: nat :| n <= |a[1..]| && n < |b[1..]| && a[1..][..n] == b[1..][..n]
                   && (n == |a[1..]| || a[1..][n] < b[1..][n]) {
        assert a[..n + 1] == [a[0]] + a[1..][..n] && b[..n + 1] == [b[0]] + b[1..][..n];
      }
      if n: nat :| n <= |a| && n < |b| && a[..n] == b[..n] && (n == |a| || a[n] < b[n]) {
        assert n > 0 && a[1..][..n - 1] == a[..n][1..] && b[1..][..n - 1] == b[..n][1..];
        assert n == |a| || a[1..][n - 1] < b[1..][n - 1];
      }
    } else if a != "" && b != "" && a[0] != b[0] {
      assert forall n: nat :: 0 < n <= |a| && n < |b| ==> a[..n][0] != b[..n][0];
      if a[0] < b[0] {
        assert a[..0] == b[..0];
      }
    } else if a == "" && b != "" {
      assert a[..0] == b[..0];
    }
  }

  // ---------------------------------------------------------------- printer

  ghost function Print(v: Json, ascii: bool): string
    decreases v, 0
  {
    match v
    case Null => "null"
    case Bool(b) => if b then "true" else "false"
    case Int(n) => PrintInt(n)
    case Float(token) => token
    case Str(s) => PrintString(s, ascii)
    case Arr(items) => if items == [] then "[]" else "[" + PrintItems(items, ascii) + "]"
    case Obj(fields) =>
      if fields == map[] then "{}" else "{" + PrintFields(v, SortedKeys(fields.Keys), ascii) + "}"
  }

  ghost function PrintItems(items: seq<Json>, ascii: bool): string
    requires items != []
    decreases items
  {
    Print(items[0], ascii) + if |items| == 1 then "" else "," + PrintItems(items[1..], ascii)
  }

  ghost function PrintFields(v: Json, keys: seq<string>, ascii: bool): string
    requires v.Obj? && forall i :: 0 <= i < |keys| ==> keys[i] in v.fields
    decreases v, 0, |keys|
  {
    if keys == [] then ""
    else PrintField(v, keys[0], ascii) + if |keys| == 1 then "" else "," + PrintFields(v, keys[1..], ascii)
  }

  ghost function PrintField(v: Json, key: string, ascii: bool): string
    requires v.Obj? && key in v.fields
    decreases v, 0, 0
  {
    PrintString(key, ascii) + ":" + Print(v.fields[key], ascii)
  }

  // ---------------------------------------------------------------- parser

  function TokenLength(t: string): (n: nat)
    ensures n <= |t|
  {
    if t == "" || t[0] in DELIMITERS then 0 else 1 + TokenLength(t[1..])
  }

  lemma {:induction false} TokenHasNoDelimiter(t: string)
    ensures forall i :: 0 <= i < TokenLength(t) ==> t[i] !in DELIMITERS
  {
    if t != "" && t[0] !in DELIMITERS {
      TokenHasNoDelimiter(t[1..]);
    }
  }

  function ParseNumber(t: string): (r: Option<(Json, string)>)
    ensures r.Some? ==> |r.value.1| < |t|
  {
    TokenHasNoDelimiter(t);
    var n := TokenLength(t);
    var token := t[..n];
    if token == "" || !Opens(token[0]) then None
    else if ParseInt(token).Some? then Some((Int(ParseInt(token).value), t[n..]))
    else if IsFloatToken(token) then Some((Float(token), t[n..]))
    else None
  }

  function ParseValue(t: string, strict: bool): (r: Option<(Json, string)>)
    ensures r.Some? ==> |r.value.1| < |t|
    decreases |t|, 1
  {
    if t == "" then None
    else if t[0] == '\"' then
      match ParseString(t[1..])
      case Some((s, rest)) => Some((Str(s), rest))
      case None => None
    else if t[0] == '[' then
      if |t| >= 2 && t[1] == ']' then Some((Arr([]), t[2..]))
      else match ParseItems(t[1..], strict)
        case Some((items, rest)) => Some((Arr(items), rest))
        case None => None
    else if t[0] == '{' then
      if |t| >= 2 && t[1] == '}' then Some((Obj(map[]), t[2..]))
      else match ParseFields(t[1..], strict)
        case Some((fields, rest)) => Some((Obj(fields), rest))
        case None => None
    else if "null" <= t then Some((Null, t[4..]))
    else if "true" <= t then Some((Bool(true), t[4..]))
    else if "false" <= t then Some((Bool(false), t[5..]))
    else ParseNumber(t)
  }

  /** The items of an array, from behind its bracket to behind the closing one. */
  function ParseItems(t: string, strict: bool): (r: Option<(seq<Json>, string)>)
    ensures r.Some? ==> |r.value.1| < |t|
    decreases |t|, 2
  {
    match ParseValue(t, strict)
    case None => None
    case Some((v, rest)) =>
      if rest == "" then None
      else if rest[0] == ']' then Some(([v], rest[1..]))
      else if rest[0] != ',' then None
      else match ParseItems(rest[1..], strict)
        case None => None
        case Some((items, after)) => Some(([v] + items, after))
  }

  predicate Leads(key: string, keys: set<string>) {
    forall k :: k in keys ==> Before(key, k)
  }

  /**
   The members of an object; of two with the same key the later one counts. A strict
   reader takes each key only if it comes before all those after it in the text.
   */
  function ParseFields(t: string, strict: bool): (r: Option<(map<string, Json>, string)>)
    ensures r.Some? ==> |r.value.1| < |t|
    decreases |t|, 2
  {
    match ParseField(t, strict)
    case None => None
    case Some((key, v, rest)) =>
      if rest == "" then None
      else if rest[0] == '}' then Some((map[key := v], rest[1..]))
      else if rest[0] != ',' then None
      else match ParseFields(rest[1..], strict)
        case None => None
        case Some((fields, after)) =>
          if strict && !Leads(key, fields.Keys) then None else Some((map[key := v] + fields, after))
  }

  function ParseField(t: string, strict: bool): (r: Option<(string, Json, string)>)
    ensures r.Some? ==> |r.value.2| < |t|
    decreases |t|, 1
  {
    if t == "" || t[0] != '\"' then None
    else match ParseString(t[1..])
      case None => None
      case Some((key, rest)) =>
        if rest == "" || rest[0] != ':' then None
        else match ParseValue(rest[1..], strict)
          case None => None
          case Some((v, after)) => Some((key, v, after))
  }

  /** A whole text is one value and nothing else. */
  function Loads(t: string): Option<Json> {
    match ParseValue(t, false)
    case Some((v, "")) => Some(v)
    case _ => None
  }

  /**
   The value that a text spells in canonical form: the keys of every object, at every
   depth, stand in strictly ascending order.
   */
  function LoadsSorted(t: string): Option<Json> {
    match ParseValue(t, true)
    case Some((v, "")) => Some(v)
    case _ => None
  }

  // ---------------------------------------------------------------- round trip

  // What may follow a value inside a larger text.
  predicate Follows(rest: string) {
    rest == "" || rest[0] in DELIMITERS
  }

  lemma {:induction false} TokenEnds(token: string, rest: string)
    requires Follows(rest) && forall i :: 0 <= i < |token| ==> token[i] !in DELIMITERS
    ensures TokenLength(token + rest) == |token|
  {
    if token == "" {
      assert token + rest == rest;
    } else {
      assert (token + rest)[1..] == token[1..] + rest;
      TokenEnds(token[1..], rest);
    }
  }

  lemma ParseToken(token: string, rest: string, strict: bool)
    requires Follows(rest) && token != "" && Opens(token[0])
    requires forall i :: 0 <= i < |token| ==> token[i] !in DELIMITERS
    requires ParseInt(token).None? ==> IsFloatToken(token)
    ensures ParseValue(token + rest, strict)
         == Some((if ParseInt(token).Some? then Int(ParseInt(token).value) else Float(token), rest))
  {
    hide ParseInt, ParseString;
    TokenEnds(token, rest);
    var t := token + rest;
    assert t[0] == token[0];
    assert t[..|token|] == token && t[|token|..] == rest;
  }

  lemma ParseWord(v: Json, ascii: bool, rest: string, strict: bool)
    requires v.Null? || v.Bool?
    ensures ParseValue(Print(v, ascii) + rest, strict) == Some((v, rest))
  {
    hide ParseString, ParseNumber, ParseItems, ParseFields;
    var word := Print(v, ascii);
    var t := word + rest;
    assert t[0] == word[0] && word <= t && t[|word|..] == rest;
    assert word == "false" ==> !("null" <= t) && !("true" <= t);
    assert word == "true" ==> !("null" <= t);
  }

  lemma ParsePrintedString(s: string, ascii: bool, rest: string)
    ensures var t := PrintString(s, ascii) + rest;
            t[0] == '\"' && ParseString(t[1..]) == Some((s, rest))
  {
    hide Escape, ParseString;
    ParseEscaped(s, ascii, rest);
    assert (PrintString(s, ascii) + rest)[1..] == Escape(s, ascii) + "\"" + rest;
  }

  /** No printed value opens with a closing bracket, so an empty container is told apart. */
  lemma PrintedOpens(v: Json, ascii: bool)
    ensures Print(v, ascii) != "" && Print(v, ascii)[0] !in DELIMITERS
  {
    hide PrintItems, PrintFields, Escape, SortedKeys;
    if v.Int? {
      ParsePrintedInt(v.n);
    }
  }

  /** `json.loads` undoes `json.dumps`, with and without `ensure_ascii`, inside any larger text. */
  lemma {:induction false} ParsePrinted(v: Json, ascii: bool, rest: string, strict: bool)
    requires Follows(rest)
    ensures ParseValue(Print(v, ascii) + rest, strict) == Some((v, rest))
    decreases v, 2
  {
    hide ParseString, ParseNumber, ParseItems, ParseFields, PrintItems, PrintFields, SortedKeys;
    match v {
      case Null => ParseWord(v, ascii, rest, strict);
      case Bool(_) => ParseWord(v, ascii, rest, strict);
      case Int(n) =>
        ParsePrintedInt(n);
        ParseToken(PrintInt(n), rest, strict);
      case Float(token) => ParseToken(token, rest, strict);
      case Str(s) => ParsePrintedString(s, ascii, rest);
      case Arr(items) =>
        if items == [] {
          assert ("[]" + rest)[2..] == rest;
        } else {
          ParsePrintedArr(v, ascii, rest, strict);
        }
      case Obj(fields) =>
        if fields == map[] {
          assert ("{}" + rest)[2..] == rest;
        } else {
          ParsePrintedObj(v, ascii, rest, strict);
        }
    }
  }

  lemma {:induction false} ParsePrintedArr(v: Json, ascii: bool, rest: string, strict: bool)
    requires v.Arr? && v.items != []
    ensures ParseValue(Print(v, ascii) + rest, strict) == Some((v, rest))
    decreases v, 1
  {
    hide ParseString, ParseNumber, ParseItems, ParseFields, PrintItems;
    var inner := PrintItems(v.items, ascii);
    ParsePrintedItems(v.items, ascii, rest, strict);
    ItemsOpen(v.items, ascii);
    assert (Print(v, ascii) + rest)[1..] == inner + "]" + rest;
    assert (Print(v, ascii) + rest)[1] == inner[0];
  }

  lemma {:induction false} ParsePrintedObj(v: Json, ascii: bool, rest: string, strict: bool)
    requires v.Obj? && v.fields != map[]
    ensures ParseValue(Print(v, ascii) + rest, strict) == Some((v, rest))
    decreases v, 1
  {
    hide ParseString, ParseNumber, ParseItems, ParseFields, PrintFields, SortedKeys;
    var keys := SortedKeys(v.fields.Keys);
    var inner := PrintFields(v, keys, ascii);
    var k :| k in v.fields;
    assert k in keys;
    ParsePrintedFields(v, keys, ascii, rest, strict);
    assert (Print(v, ascii) + rest)[1..] == inner + "}" + rest;
    assert (Print(v, ascii) + rest)[1] == inner[0];
    assert Chosen(v.fields, keys) == v.fields;
  }

  lemma ItemsOpen(items: seq<Json>, ascii: bool)
    requires items != []
    ensures PrintItems(items, ascii) != "" && PrintItems(items, ascii)[0] != ']'
  {
    PrintedOpens(items[0], ascii);
  }

  lemma {:induction false} ParsePrintedItems(items: seq<Json>, ascii: bool, rest: string, strict: bool)
    requires items != []
    ensures ParseItems(PrintItems(items, ascii) + "]" + rest, strict) == Some((items, rest))
    decreases items
  {
    hide Print, ParseValue;
    var first := Print(items[0], ascii);
    if |items| == 1 {
      ParsePrinted(items[0], ascii, "]" + rest, strict);
      assert PrintItems(items, ascii) + "]" + rest == first + ("]" + rest);
      assert ("]" + rest)[1..] == rest;
      assert items == [items[0]];
    } else {
      var more := PrintItems(items[1..], ascii) + "]" + rest;
      ParsePrinted(items[0], ascii, "," + more, strict);
      ParsePrintedItems(items[1..], ascii, rest, strict);
      assert PrintItems(items, ascii) + "]" + rest == first + ("," + more);
      assert ("," + more)[1..] == more;
      assert items == [items[0]] + items[1..];
    }
  }

  function Chosen(fields: map<string, Json>, keys: seq<string>): map<string, Json> {
    map k | k in keys && k in fields :: fields[k]
  }

  lemma ChosenCons(fields: map<string, Json>, keys: seq<string>)
    requires keys != [] && keys[0] in fields
    requires forall i, j :: 0 <= i < j < |keys| ==> keys[i] != keys[j]
    ensures Chosen(fields, keys) == map[keys[0] := fields[keys[0]]] + Chosen(fields, keys[1..])
  {
    assert keys == [keys[0]] + keys[1..];
    assert keys[0] !in keys[1..];
  }

  lemma {:induction false} ParsePrintedField(v: Json, key: string, ascii: bool, rest: string, strict: bool)
    requires v.Obj? && key in v.fields && Follows(rest)
    ensures ParseField(PrintField(v, key, ascii) + rest, strict) == Some((key, v.fields[key], rest))
    ensures PrintField(v, key, ascii)[0] == '\"'
    decreases v, 0, 0
  {
    hide Print, ParseValue, ParseString, PrintString;
    var name, value := PrintString(key, ascii), Print(v.fields[key], ascii);
    ParsePrintedString(key, ascii, ":" + value + rest);
    ParsePrinted(v.fields[key], ascii, rest, strict);
    assert PrintField(v, key, ascii) + rest == name + (":" + value + rest);
    assert (":" + value + rest)[1..] == value + rest;
  }

  lemma LastField(t: string, key: string, v: Json, rest: string, strict: bool)
    requires ParseField(t, strict) == Some((key, v, "}" + rest))
    ensures ParseFields(t, strict) == Some((map[key := v], rest))
  {
    hide ParseField;
    assert ("}" + rest)[1..] == rest;
  }

  lemma MoreFields(t: string, key: string, v: Json, more: string, strict: bool)
    requires ParseField(t, strict) == Some((key, v, "," + more)) && ParseFields(more, strict).Some?
    requires strict ==> Leads(key, ParseFields(more, strict).value.0.Keys)
    ensures var (fields, rest) := ParseFields(more, strict).value;
            ParseFields(t, strict) == Some((map[key := v] + fields, rest))
  {
    hide ParseField;
    assert ("," + more)[1..] == more;
  }

  lemma {:induction false} ParsePrintedFields(v: Json, keys: seq<string>, ascii: bool, rest: string, strict: bool)
    requires v.Obj? && keys != [] && forall i :: 0 <= i < |keys| ==> keys[i] in v.fields
    requires forall i, j :: 0 <= i < j < |keys| ==> Before(keys[i], keys[j])
    ensures ParseFields(PrintFields(v, keys, ascii) + "}" + rest, strict) == Some((Chosen(v.fields, keys), rest))
    ensures PrintFields(v, keys, ascii) != "" && PrintFields(v, keys, ascii)[0] == '\"'
    decreases v, 0, |keys|
  {
    hide PrintField, ParseField, ParseFields;
    var first, t := PrintField(v, keys[0], ascii), PrintFields(v, keys, ascii) + "}" + rest;
    AscendingIsDistinct(keys);
    ChosenCons(v.fields, keys);
    if |keys| == 1 {
      ParsePrintedField(v, keys[0], ascii, "}" + rest, strict);
      assert t == first + ("}" + rest);
      LastField(t, keys[0], v.fields[keys[0]], rest, strict);
      assert Chosen(v.fields, keys) == map[keys[0] := v.fields[keys[0]]];
    } else {
      var more := PrintFields(v, keys[1..], ascii) + "}" + rest;
      ParsePrintedField(v, keys[0], ascii, "," + more, strict);
      ParsePrintedFields(v, keys[1..], ascii, rest, strict);
      assert t == first + ("," + more);
      MoreFields(t, keys[0], v.fields[keys[0]], more, strict);
    }
  }

  lemma LoadsDumped(v: Json, ascii: bool)
    ensures Loads(Print(v, ascii)) == Some(v)
  {
    ParsePrinted(v, ascii, "", false);
    assert Print(v, ascii) + "" == Print(v, ascii);
  }

  /** Every printed text is in canonical form: the keys of its objects ascend, at every depth. */
  lemma PrintedIsSorted(v: Json, ascii: bool)
    ensures LoadsSorted(Print(v, ascii)) == Some(v)
  {
    ParsePrinted(v, ascii, "", true);
    assert Print(v, ascii) + "" == Print(v, ascii);
  }

  /** The text has no control characters, and with `ascii` nothing beyond ASCII. */
  lemma {:induction false} PrintedIsVisible(v: Json, ascii: bool)
    ensures Visible(Print(v, ascii), ascii)
    decreases v, 1
  {
    hide PrintInt, PrintString, PrintItems, PrintFields, SortedKeys, Visible;
    match v {
      case Null => WordsAreVisible(ascii);
      case Bool(_) => WordsAreVisible(ascii);
      case Int(n) => IntIsVisible(n, ascii);
      case Float(token) => TokenIsVisible(token, ascii);
      case Str(s) => StringIsVisible(s, ascii);
      case Arr(items) =>
        WordsAreVisible(ascii);
        if items != [] {
          ItemsAreVisible(items, ascii);
          JoinIsVisible("[", PrintItems(items, ascii), ascii);
          JoinIsVisible("[" + PrintItems(items, ascii), "]", ascii);
        }
      case Obj(fields) =>
        WordsAreVisible(ascii);
        if fields != map[] {
          FieldsAreVisible(v, SortedKeys(fields.Keys), ascii);
          JoinIsVisible("{", PrintFields(v, SortedKeys(fields.Keys), ascii), ascii);
          JoinIsVisible("{" + PrintFields(v, SortedKeys(fields.Keys), ascii), "}", ascii);
        }
    }
  }

  lemma JoinIsVisible(a: string, b: string, ascii: bool)
    requires Visible(a, ascii) && Visible(b, ascii)
    ensures Visible(a + b, ascii)
  {
  }

  lemma WordsAreVisible(ascii: bool)
    ensures forall w :: w in ["null", "true", "false", "[]", "{}", "[", "]", "{", "}", ",", ":", ""] ==>
              Visible(w, ascii)
  {
  }

  lemma TokenIsVisible(token: FloatToken, ascii: bool)
    ensures Visible(token, ascii)
  {
  }

  lemma IntIsVisible(n: int, ascii: bool)
    ensures Visible(PrintInt(n), ascii)
  {
    ParsePrintedInt(n);
  }

  lemma {:induction false} ItemsAreVisible(items: seq<Json>, ascii: bool)
    requires items != []
    ensures Visible(PrintItems(items, ascii), ascii)
    decreases items
  {
    hide Print, Visible;
    PrintedIsVisible(items[0], ascii);
    WordsAreVisible(ascii);
    JoinIsVisible(Print(items[0], ascii), "", ascii);
    if |items| > 1 {
      ItemsAreVisible(items[1..], ascii);
      JoinIsVisible(",", PrintItems(items[1..], ascii), ascii);
      JoinIsVisible(Print(items[0], ascii), "," + PrintItems(items[1..], ascii), ascii);
    }
  }

  lemma {:induction false} FieldsAreVisible(v: Json, keys: seq<string>, ascii: bool)
    requires v.Obj? && forall i :: 0 <= i < |keys| ==> keys[i] in v.fields
    ensures Visible(PrintFields(v, keys, ascii), ascii)
    decreases v, 0, |keys|
  {
    hide Print, PrintString, Visible;
    WordsAreVisible(ascii);
    if keys != [] {
      var name, value := PrintString(keys[0], ascii), Print(v.fields[keys[0]], ascii);
      StringIsVisible(keys[0], ascii);
      PrintedIsVisible(v.fields[keys[0]], ascii);
      JoinIsVisible(name, ":", ascii);
      JoinIsVisible(name + ":", value, ascii);
      JoinIsVisible(name + ":" + value, "", ascii);
      if |keys| > 1 {
        FieldsAreVisible(v, keys[1..], ascii);
        JoinIsVisible(",", PrintFields(v, keys[1..], ascii), ascii);
        JoinIsVisible(name + ":" + value, "," + PrintFields(v, keys[1..], ascii), ascii);
      }
    }
  }
}
