/** The JSON values the code serialises, the text json.dumps writes for them, and a reader for it.
    A Python dict is an ordered list of members with distinct keys; strings are Unicode scalar values. */
module Json {
  import opened Basics

  datatype Json =
    | Null
    | Bool(b: bool)
    | Int(n: int)
    | Str(s: string)
    | Arr(items: seq<Json>)
    | Obj(members: seq<Member>)

  datatype Member = Member(key: string, value: Json)

  ghost predicate DistinctKeys(ms: seq<Member>) {
    forall i, j :: 0 <= i < j < |ms| ==> ms[i].key != ms[j].key
  }

  /** Every object in the value has distinct keys, as every Python dict does. */
  ghost predicate WellKeyed(j: Json) {
    match j
    case Arr(items) => forall x :: x in items ==> WellKeyed(x)
    case Obj(ms) => DistinctKeys(ms) && forall m :: m in ms ==> WellKeyed(m.value)
    case _ => true
  }

  // ---- Writer: json.dumps(..., separators=(",", ":")) with ensure_ascii ----

  function HexDigit(d: nat): char
    requires d < 16
  {
    if d < 10 then (d + '0' as int) as char else (d - 10 + 'a' as int) as char
  }

  function Hex4(n: nat): string
    requires n < 0x10000
  {
    [HexDigit(n / 0x1000), HexDigit(n / 0x100 % 16), HexDigit(n / 0x10 % 16), HexDigit(n % 16)]
  }

  function EscapeChar(c: char): string {
    var n := c as int;
    if c == '\"' then "\\\""
    else if c == '\\' then "\\\\"
    else if n == 10 then "\\n"
    else if n == 13 then "\\r"
    else if n == 9 then "\\t"
    else if n == 12 then "\\f"
    else if n == 8 then "\\b"
    else if 0x20 <= n <= 0x7e then [c]
    else if n < 0x10000 then "\\u" + Hex4(n)
    else "\\u" + Hex4(0xD800 + (n - 0x10000) / 0x400) + "\\u" + Hex4(0xDC00 + (n - 0x10000) % 0x400)
  }

  function Escape(s: string): string {
    if |s| == 0 then "" else EscapeChar(s[0]) + Escape(s[1..])
  }

  function Quote(s: string): string {
    "\"" + Escape(s) + "\""
  }

  function NatText(n: nat): string {
    if n < 10 then [HexDigit(n)] else NatText(n / 10) + [HexDigit(n % 10)]
  }

  function IntText(n: int): string {
    if n < 0 then "-" + NatText(-n) else NatText(n)
  }

  function Dump(j: Json): string
    decreases j, 1
  {
    match j
    case Null => "null"
    case Bool(b) => if b then "true" else "false"
    case Int(n) => IntText(n)
    case Str(s) => Quote(s)
    case Arr(items) => if |items| == 0 then "[]" else "[" + DumpItems(items) + "]"
    case Obj(ms) => if |ms| == 0 then "{}" else "{" + DumpMembers(ms) + "}"
  }

  function DumpItems(items: seq<Json>): string
    requires |items| > 0
    decreases items, 0
  {
    if |items| == 1 then Dump(items[0])
    else Dump(items[0]) + "," + DumpItems(items[1..])
  }

  function DumpMember(m: Member): string
    decreases m, 2
  {
    Quote(m.key) + ":" + Dump(m.value)
  }

  function DumpMembers(ms: seq<Member>): string
    requires |ms| > 0
    decreases ms, 0
  {
    if |ms| == 1 then DumpMember(ms[0])
    else DumpMember(ms[0]) + "," + DumpMembers(ms[1..])
  }

  // ---- Reader: json.loads on text without white space between tokens and without floats ----

  datatype Parsed<+T> = Fail | Got(value: T, rest: string) {
    predicate IsFailure() { Fail? }
    function PropagateFailure<U>(): Parsed<U> requires Fail? { Fail }
    function Extract(): (T, string) requires Got? { (value, rest) }
  }

  function HexValue(c: char): Option<nat> {
    if '0' <= c <= '9' then Some(c as int - '0' as int)
    else if 'a' <= c <= 'f' then Some(c as int - 'a' as int + 10)
    else if 'A' <= c <= 'F' then Some(c as int - 'A' as int + 10)
    else None
  }

  /** The four hex digits at the front of s. */
  function Hex4Value(s: string): (r: Option<nat>)
    ensures r.Some? ==> |s| >= 4 && r.value < 0x10000
  {
    if |s| < 4 then None
    else match (HexValue(s[0]), HexValue(s[1]), HexValue(s[2]), HexValue(s[3]))
      case (Some(a), Some(b), Some(c), Some(d)) =>
        if a < 16 && b < 16 && c < 16 && d < 16 then Some(0x1000 * a + 0x100 * b + 0x10 * c + d) else None
      case _ => None
  }

  function ReadUnicodeEscape(s: string): (r: Parsed<char>)
    requires |s| >= 2
    ensures r.Got? ==> |r.rest| < |s|
  {
    match Hex4Value(s[2..])
    case None => Fail
    case Some(u) =>
      if u < 0xD800 || 0xE000 <= u then Got(u as char, s[6..])
      else if 0xDC00 <= u || |s| < 12 || s[6] != '\\' || s[7] != 'u' then Fail
      else match Hex4Value(s[8..])
        case Some(v) =>
          if 0xDC00 <= v < 0xE000
          then Got((0x10000 + (u - 0xD800) * 0x400 + (v - 0xDC00)) as char, s[12..])
          else Fail
        case None => Fail
  }

  /** One character of a string body; a high surrogate must be followed by a low one. */
  function ReadChar(s: string): (r: Parsed<char>)
    requires |s| > 0
    ensures r.Got? ==> |r.rest| < |s|
  {
    if s[0] != '\\' then
      if s[0] as int < 0x20 then Fail else Got(s[0], s[1..])
    else if |s| < 2 then Fail
    else if s[1] == 'u' then ReadUnicodeEscape(s)
    else match s[1]
      case '\"' => Got('\"', s[2..])
      case '\\' => Got('\\', s[2..])
      case '/' => Got('/', s[2..])
      case 'b' => Got(8 as char, s[2..])
      case 'f' => Got(12 as char, s[2..])
      case 'n' => Got(10 as char, s[2..])
      case 'r' => Got(13 as char, s[2..])
      case 't' => Got(9 as char, s[2..])
      case _ => Fail
  }

  /** The rest of a string literal after its opening quote. */
  function ReadString(s: string): (r: Parsed<string>)
    ensures r.Got? ==> |r.rest| < |s|
  {
    if |s| == 0 then Fail
    else if s[0] == '\"' then Got("", s[1..])
    else
      var (c, rest) :- ReadChar(s);
      var (tail, rest') :- ReadString(rest);
      Got([c] + tail, rest')
  }

  predicate IsDigit(c: char) { '0' <= c <= '9' }

  function DigitCount(s: string): (k: nat)
    ensures k <= |s|
  {
    if |s| == 0 || !IsDigit(s[0]) then 0 else 1 + DigitCount(s[1..])
  }

  function DigitsValue(s: string): nat
    requires forall c :: c in s ==> IsDigit(c)
  {
    if |s| == 0 then 0
    else
      assert IsDigit(s[|s| - 1]);
      10 * DigitsValue(s[..|s| - 1]) + (s[|s| - 1] as int - '0' as int)
  }

  lemma {:induction false} DigitPrefix(s: string)
    ensures forall c :: c in s[..DigitCount(s)] ==> IsDigit(c)
  {
    if |s| != 0 && IsDigit(s[0]) {
      DigitPrefix(s[1..]);
      assert s[..DigitCount(s)] == [s[0]] + s[1..][..DigitCount(s[1..])];
    }
  }

  predicate StartsFraction(s: string) {
    |s| > 0 && (s[0] == '.' || s[0] == 'e' || s[0] == 'E')
  }

  /** An unsigned integer literal: no leading zero, and no fraction or exponent after it. */
  function ReadNat(s: string): (r: Parsed<nat>)
    ensures r.Got? ==> |r.rest| < |s|
  {
    var k := DigitCount(s);
    DigitPrefix(s);
    if k == 0 then Fail
    else if s[0] == '0' then if StartsFraction(s[1..]) then Fail else Got(0, s[1..])
    else if StartsFraction(s[k..]) then Fail
    else Got(DigitsValue(s[..k]), s[k..])
  }

  function ReadInt(s: string): (r: Parsed<int>)
    ensures r.Got? ==> |r.rest| < |s|
  {
    if |s| > 0 && s[0] == '-' then
      var (n, rest) :- ReadNat(s[1..]);
      Got(0 - (n as int), rest)
    else
      var (n, rest) :- ReadNat(s);
      Got(n, rest)
  }

  function ReadWord(word: string, j: Json, s: string): (r: Parsed<Json>)
    requires |word| > 0
    ensures r.Got? ==> |r.rest| < |s|
  {
    if word <= s then Got(j, s[|word|..]) else Fail
  }

  /** A later duplicate key overwrites the value and keeps the position, as building a dict does. */
  function Put(ms: seq<Member>, m: Member): seq<Member> {
    if |ms| == 0 then [m]
    else if ms[0].key == m.key then [m] + ms[1..]
    else [ms[0]] + Put(ms[1..], m)
  }

  function Dict(ms: seq<Member>): seq<Member> {
    if |ms| == 0 then [] else Put(Dict(ms[..|ms| - 1]), ms[|ms| - 1])
  }

  function ReadValue(s: string): (r: Parsed<Json>)
    ensures r.Got? ==> |r.rest| < |s|
    decreases |s|, 0
  {
    if |s| == 0 then Fail
    else if s[0] == '-' || IsDigit(s[0]) then
      var (n, rest) :- ReadInt(s); Got(Int(n), rest)
    else match s[0]
      case '\"' => var (t, rest) :- ReadString(s[1..]); Got(Str(t), rest)
      case 'n' => ReadWord("null", Null, s)
      case 't' => ReadWord("true", Bool(true), s)
      case 'f' => ReadWord("false", Bool(false), s)
      case '[' =>
        if |s| > 1 && s[1] == ']' then Got(Arr([]), s[2..])
        else var (items, rest) :- ReadItems(s[1..]); Got(Arr(items), rest)
      case '{' =>
        if |s| > 1 && s[1] == '}' then Got(Obj([]), s[2..])
        else var (ms, rest) :- ReadMembers(s[1..]); Got(Obj(Dict(ms)), rest)
      case _ => Fail
  }

  function ReadItems(s: string): (r: Parsed<seq<Json>>)
    ensures r.Got? ==> |r.rest| < |s|
    decreases |s|, 1
  {
    var (v, rest) :- ReadValue(s);
    if |rest| == 0 then Fail
    else if rest[0] == ']' then Got([v], rest[1..])
    else if rest[0] != ',' then Fail
    else var (vs, rest') :- ReadItems(rest[1..]); Got([v] + vs, rest')
  }

  function ReadMember(s: string): (r: Parsed<Member>)
    ensures r.Got? ==> |r.rest| < |s|
    decreases |s|, 1
  {
    if |s| == 0 || s[0] != '\"' then Fail
    else
      var (key, rest) :- ReadString(s[1..]);
      if |rest| == 0 || rest[0] != ':' then Fail
      else var (v, rest') :- ReadValue(rest[1..]); Got(Member(key, v), rest')
  }

  function ReadMembers(s: string): (r: Parsed<seq<Member>>)
    ensures r.Got? ==> |r.rest| < |s|
    decreases |s|, 2
  {
    var (m, rest) :- ReadMember(s);
    if |rest| == 0 then Fail
    else if rest[0] == '}' then Got([m], rest[1..])
    else if rest[0] != ',' then Fail
    else var (ms, rest') :- ReadMembers(rest[1..]); Got([m] + ms, rest')
  }

  function Loads(s: string): Option<Json> {
    match ReadValue(s)
    case Got(j, rest) => if |rest| == 0 then Some(j) else None
    case Fail => None
  }

  // ---- Reading back what was written ----

  // Regrouping of concatenations, kept away from the readers.

  lemma Head<T>(x: T, s: seq<T>)
    ensures ([x] + s)[0] == x && ([x] + s)[1..] == s
  {
  }

  lemma Regroup<T>(a: seq<T>, b: seq<T>, c: seq<T>)
    ensures a + b + c == a + (b + c)
  {
  }

  lemma RegroupMember(q: string, v: string, rest: string)
    ensures "\"" + q + "\"" + ":" + v + rest == ['\"'] + (q + "\"" + ([':'] + (v + rest)))
  {
  }

  lemma RegroupList<T>(x: T, a: seq<T>, b: seq<T>, c: seq<T>, rest: seq<T>)
    ensures a + [x] + b + c + rest == a + ([x] + (b + c + rest))
    ensures a + [x] + rest == a + ([x] + rest)
    ensures [x] + a + b + rest == [x] + (a + b + rest)
  {
  }

  lemma HexDigitValue(d: nat)
    requires d < 16
    ensures HexValue(HexDigit(d)) == Some(d)
  {
  }

  lemma HexPlaces(n: nat)
    requires n < 0x10000
    ensures n == 0x1000 * (n / 0x1000) + 0x100 * (n / 0x100 % 16) + 0x10 * (n / 0x10 % 16) + n % 16
    ensures n / 0x1000 < 16
  {
    assert n / 0x10 / 0x10 == n / 0x100 && n / 0x100 / 0x10 == n / 0x1000;
  }

  lemma Hex4RoundTrip(n: nat, rest: string)
    requires n < 0x10000
    ensures Hex4Value(Hex4(n) + rest) == Some(n)
  {
    HexPlaces(n);
    HexDigitValue(n / 0x1000);
    HexDigitValue(n / 0x100 % 16);
    HexDigitValue(n / 0x10 % 16);
    HexDigitValue(n % 16);
    var s := Hex4(n) + rest;
    assert s[..4] == Hex4(n);
    assert s[0] == Hex4(n)[0] && s[1] == Hex4(n)[1] && s[2] == Hex4(n)[2] && s[3] == Hex4(n)[3];
  }

  lemma ReadHexPair(hi: nat, lo: nat, rest: string)
    requires 0xD800 <= hi < 0xDC00 && 0xDC00 <= lo < 0xE000
    ensures ReadChar("\\u" + Hex4(hi) + "\\u" + Hex4(lo) + rest)
         == Got((0x10000 + (hi - 0xD800) * 0x400 + (lo - 0xDC00)) as char, rest)
  {
    var s, tail := "\\u" + Hex4(hi) + "\\u" + Hex4(lo) + rest, "\\u" + Hex4(lo) + rest;
    assert s[2..] == Hex4(hi) + tail;
    Hex4RoundTrip(hi, tail);
    assert s[8..] == Hex4(lo) + rest && s[12..] == rest;
    Hex4RoundTrip(lo, rest);
  }

  lemma SurrogateParts(n: nat)
    requires 0x10000 <= n < 0x110000
    ensures var hi, lo := 0xD800 + (n - 0x10000) / 0x400, 0xDC00 + (n - 0x10000) % 0x400;
            && 0xD800 <= hi < 0xDC00 && 0xDC00 <= lo < 0xE000
            && 0x10000 + (hi - 0xD800) * 0x400 + (lo - 0xDC00) == n
  {
  }

  lemma ReadSurrogatePair(c: char, rest: string)
    requires c as int >= 0x10000
    ensures ReadChar(EscapeChar(c) + rest) == Got(c, rest)
  {
    var n := c as int;
    var hi, lo := 0xD800 + (n - 0x10000) / 0x400, 0xDC00 + (n - 0x10000) % 0x400;
    SurrogateParts(n);
    assert EscapeChar(c) == "\\u" + Hex4(hi) + "\\u" + Hex4(lo);
    ReadHexPair(hi, lo, rest);
  }

  lemma ReadUnicodeUnit(n: nat, rest: string)
    requires n < 0xD800 || 0xE000 <= n < 0x10000
    ensures ReadChar("\\u" + Hex4(n) + rest) == Got(n as char, rest)
  {
    var s := "\\u" + Hex4(n) + rest;
    assert s[2..] == Hex4(n) + rest && s[6..] == rest;
    Hex4RoundTrip(n, rest);
  }

  lemma ReadEscapedChar(c: char, rest: string)
    ensures ReadChar(EscapeChar(c) + rest) == Got(c, rest)
  {
    var n, e := c as int, EscapeChar(c);
    if n >= 0x10000 {
      ReadSurrogatePair(c, rest);
    } else if |e| > 2 {
      ReadUnicodeUnit(n, rest);
    } else {
      assert (e + rest)[|e|..] == rest;
    }
  }

  lemma EscapeCharShape(c: char)
    ensures |EscapeChar(c)| > 0 && EscapeChar(c)[0] != '\"'
    ensures forall x :: x in EscapeChar(c) ==> 0x20 <= x as int <= 0x7e
  {
  }

  lemma {:induction false} ReadEscapedString(t: string, rest: string)
    ensures ReadString(Escape(t) + "\"" + rest) == Got(t, rest)
  {
    var s := Escape(t) + "\"" + rest;
    if |t| == 0 {
      assert s == "\"" + rest;
    } else {
      var e, s' := EscapeChar(t[0]), Escape(t[1..]) + "\"" + rest;
      assert s == e + s';
      EscapeCharShape(t[0]);
      assert s[0] == e[0];
      ReadEscapedChar(t[0], s');
      ReadEscapedString(t[1..], rest);
      assert t == [t[0]] + t[1..];
    }
  }

  lemma {:induction false} NatTextDigits(n: nat)
    ensures |NatText(n)| > 0 && forall c :: c in NatText(n) ==> IsDigit(c)
    ensures n > 0 ==> NatText(n)[0] != '0'
    ensures n == 0 ==> NatText(n) == "0"
    ensures DigitsValue(NatText(n)) == n
  {
    if n < 10 {
      assert NatText(n)[..0] == [];
    } else {
      NatTextDigits(n / 10);
      assert NatText(n)[..|NatText(n)| - 1] == NatText(n / 10);
    }
  }

  lemma {:induction false} DigitRun(d: string, rest: string)
    requires forall c :: c in d ==> IsDigit(c)
    requires |rest| == 0 || !IsDigit(rest[0])
    ensures DigitCount(d + rest) == |d|
  {
    if |d| == 0 {
      assert d + rest == rest;
    } else {
      assert (d + rest)[1..] == d[1..] + rest;
      DigitRun(d[1..], rest);
    }
  }

  /** What may follow a number: nothing that could extend it. */
  predicate Delimits(rest: string) {
    |rest| == 0 || (!IsDigit(rest[0]) && !StartsFraction(rest))
  }

  lemma ReadWrittenNat(n: nat, rest: string)
    requires Delimits(rest)
    ensures ReadNat(NatText(n) + rest) == Got(n, rest)
  {
    var d := NatText(n);
    NatTextDigits(n);
    DigitRun(d, rest);
    var s := d + rest;
    assert s[..|d|] == d && s[|d|..] == rest && s[0] == d[0];
  }

  lemma ReadIntStep(s: string, n: int, rest: string)
    requires n >= 0 && |s| > 0
    ensures s[0] == '-' && ReadNat(s[1..]) == Got(n as nat, rest) ==> ReadInt(s) == Got(-n, rest)
    ensures s[0] != '-' && ReadNat(s) == Got(n as nat, rest) ==> ReadInt(s) == Got(n, rest)
  {
  }

  lemma ReadWrittenInt(n: int, rest: string)
    requires Delimits(rest)
    ensures ReadInt(IntText(n) + rest) == Got(n, rest)
    ensures |IntText(n)| > 0 && (IntText(n)[0] == '-' || IsDigit(IntText(n)[0]))
  {
    var k := if n < 0 then -n else n;
    var text := NatText(k);
    var d := text + rest;
    NatTextDigits(k);
    ReadWrittenNat(k, rest);
    assert IsDigit(text[0]) && d[0] == text[0];
    if n < 0 {
      Regroup(['-'], text, rest);
      Head('-', d);
      ReadIntStep(['-'] + d, k, rest);
    } else {
      ReadIntStep(d, k, rest);
    }
  }

  lemma {:induction false} PutNewKey(ms: seq<Member>, m: Member)
    requires forall x :: x in ms ==> x.key != m.key
    ensures Put(ms, m) == ms + [m]
  {
    if |ms| == 0 {
    } else {
      PutNewKey(ms[1..], m);
      assert ms == [ms[0]] + ms[1..];
    }
  }

  lemma {:induction false} DictOfDistinct(ms: seq<Member>)
    requires DistinctKeys(ms)
    ensures Dict(ms) == ms
  {
    if |ms| == 0 {
    } else {
      var front, last := ms[..|ms| - 1], ms[|ms| - 1];
      DictOfDistinct(front);
      PutNewKey(front, last);
      assert ms == front + [last];
    }
  }

  // One unfolding of each reader.

  lemma ReadValueOfArr(s: string, items: seq<Json>, rest: string)
    requires |s| > 0 && s[0] == '[' && (|s| == 1 || s[1] != ']')
    requires ReadItems(s[1..]) == Got(items, rest)
    ensures ReadValue(s) == Got(Arr(items), rest)
  {
  }

  lemma ReadValueOfObj(s: string, ms: seq<Member>, rest: string)
    requires |s| > 0 && s[0] == '{' && (|s| == 1 || s[1] != '}')
    requires ReadMembers(s[1..]) == Got(ms, rest)
    ensures ReadValue(s) == Got(Obj(Dict(ms)), rest)
  {
  }

  lemma ReadItemsStep(s: string, v: Json, rest: string)
    requires ReadValue(s) == Got(v, rest) && |rest| > 0
    ensures rest[0] == ']' ==> ReadItems(s) == Got([v], rest[1..])
    ensures rest[0] == ',' && ReadItems(rest[1..]).Got? ==>
              ReadItems(s) == Got([v] + ReadItems(rest[1..]).value, ReadItems(rest[1..]).rest)
  {
  }

  lemma ReadMembersStep(s: string, m: Member, rest: string)
    requires ReadMember(s) == Got(m, rest) && |rest| > 0
    ensures rest[0] == '}' ==> ReadMembers(s) == Got([m], rest[1..])
    ensures rest[0] == ',' && ReadMembers(rest[1..]).Got? ==>
              ReadMembers(s) == Got([m] + ReadMembers(rest[1..]).value, ReadMembers(rest[1..]).rest)
  {
  }

  lemma ReadMemberOf(q: string, inner: string, m: Member, rest: string)
    requires ReadString(q + "\"" + ([':'] + inner)) == Got(m.key, [':'] + inner)
    requires ReadValue(inner) == Got(m.value, rest)
    ensures ReadMember(['\"'] + (q + "\"" + ([':'] + inner))) == Got(m, rest)
  {
    Head('\"', q + "\"" + ([':'] + inner));
    Head(':', inner);
  }

  lemma ReadWrittenArr(items: seq<Json>, rest: string)
    requires |items| > 0
    requires |DumpItems(items)| > 0 && DumpItems(items)[0] != ']'
    requires ReadItems(DumpItems(items) + "]" + rest) == Got(items, rest)
    ensures ReadValue(Dump(Arr(items)) + rest) == Got(Arr(items), rest)
  {
    var body := DumpItems(items);
    var inner := body + [']'] + rest;
    RegroupList('[', body, [']'], [], rest);
    Head('[', inner);
    assert inner[0] == body[0];
    ReadValueOfArr(['['] + inner, items, rest);
  }

  lemma ReadWrittenObj(ms: seq<Member>, rest: string)
    requires |ms| > 0
    requires |DumpMembers(ms)| > 0 && DumpMembers(ms)[0] == '\"'
    requires ReadMembers(DumpMembers(ms) + "}" + rest) == Got(ms, rest)
    ensures ReadValue(Dump(Obj(ms)) + rest) == Got(Obj(Dict(ms)), rest)
  {
    var s, inner := Dump(Obj(ms)) + rest, DumpMembers(ms) + "}" + rest;
    assert s == ['{'] + inner;
    assert s[1..] == inner && s[1] == DumpMembers(ms)[0];
    ReadValueOfObj(s, ms, rest);
  }

  lemma ReadWrittenWord(j: Json, rest: string)
    requires j.Null? || j.Bool?
    ensures ReadValue(Dump(j) + rest) == Got(j, rest)
  {
    var word := Dump(j);
    assert (word + rest)[..|word|] == word && (word + rest)[|word|..] == rest;
    assert (word + rest)[0] == word[0];
  }

  lemma ReadValueOfStr(body: string, t: string, rest: string)
    requires ReadString(body) == Got(t, rest)
    ensures ReadValue(['\"'] + body) == Got(Str(t), rest)
  {
    Head('\"', body);
  }

  lemma ReadValueOfInt(s: string, n: int, rest: string)
    requires |s| > 0 && (s[0] == '-' || IsDigit(s[0])) && ReadInt(s) == Got(n, rest)
    ensures ReadValue(s) == Got(Int(n), rest)
  {
  }

  lemma ReadWrittenScalar(j: Json, rest: string)
    requires j.Null? || j.Bool? || j.Int? || j.Str?
    requires Delimits(rest)
    ensures ReadValue(Dump(j) + rest) == Got(j, rest)
    ensures |Dump(j)| > 0 && Dump(j)[0] != ']'
  {
    match j
    case Int(n) =>
      ReadWrittenInt(n, rest);
      assert (IntText(n) + rest)[0] == IntText(n)[0];
      ReadValueOfInt(IntText(n) + rest, n, rest);
    case Str(t) =>
      ReadEscapedString(t, rest);
      ReadValueOfStr(Escape(t) + "\"" + rest, t, rest);
      RegroupList('\"', Escape(t), "\"", [], rest);
    case _ => ReadWrittenWord(j, rest);
  }

  lemma ReadEmptyContainer(rest: string)
    ensures ReadValue("[]" + rest) == Got(Arr([]), rest)
    ensures ReadValue("{}" + rest) == Got(Obj([]), rest)
  {
    assert ("[]" + rest)[2..] == rest && ("{}" + rest)[2..] == rest;
  }

  /** Reading back a written value, whatever delimiter follows it. */
  lemma {:induction false} ReadWrittenValue(j: Json, rest: string)
    requires WellKeyed(j) && Delimits(rest)
    ensures ReadValue(Dump(j) + rest) == Got(j, rest)
    ensures |Dump(j)| > 0 && Dump(j)[0] != ']'
    decreases j, 1
  {
    match j
    case Arr(items) =>
      if |items| == 0 {
        ReadEmptyContainer(rest);
      } else {
        ReadWrittenItems(items, rest);
        ReadWrittenArr(items, rest);
      }
    case Obj(ms) =>
      if |ms| == 0 {
        ReadEmptyContainer(rest);
      } else {
        ReadWrittenMembers(ms, rest);
        ReadWrittenObj(ms, rest);
        DictOfDistinct(ms);
      }
    case _ => ReadWrittenScalar(j, rest);
  }

  lemma {:induction false} ReadWrittenItems(items: seq<Json>, rest: string)
    requires |items| > 0 && forall x :: x in items ==> WellKeyed(x)
    ensures ReadItems(DumpItems(items) + "]" + rest) == Got(items, rest)
    ensures |DumpItems(items)| > 0 && DumpItems(items)[0] != ']'
    decreases items, 0
  {
    var first := Dump(items[0]);
    var tail := if |items| == 1 then rest else DumpItems(items[1..]) + "]" + rest;
    var after := [if |items| == 1 then ']' else ','] + tail;
    Head(after[0], tail);
    ReadWrittenValue(items[0], after);
    ReadItemsStep(first + after, items[0], after);
    Head(items[0], items[1..]);
    assert items == [items[0]] + items[1..];
    if |items| == 1 {
      RegroupList(']', first, [], [], rest);
    } else {
      ReadWrittenItems(items[1..], rest);
      RegroupList(',', first, DumpItems(items[1..]), "]", rest);
    }
  }

  lemma {:induction false} ReadWrittenMember(m: Member, rest: string)
    requires WellKeyed(m.value) && Delimits(rest)
    ensures ReadMember(DumpMember(m) + rest) == Got(m, rest)
    ensures |DumpMember(m)| > 0 && DumpMember(m)[0] == '\"'
    decreases m, 2
  {
    var inner := Dump(m.value) + rest;
    ReadEscapedString(m.key, [':'] + inner);
    ReadWrittenValue(m.value, rest);
    ReadMemberOf(Escape(m.key), inner, m, rest);
    RegroupMember(Escape(m.key), Dump(m.value), rest);
  }

  lemma {:induction false} ReadWrittenMembers(ms: seq<Member>, rest: string)
    requires |ms| > 0 && forall m :: m in ms ==> WellKeyed(m.value)
    ensures ReadMembers(DumpMembers(ms) + "}" + rest) == Got(ms, rest)
    ensures |DumpMembers(ms)| > 0 && DumpMembers(ms)[0] == '\"'
    decreases ms, 0
  {
    var first := DumpMember(ms[0]);
    var tail := if |ms| == 1 then rest else DumpMembers(ms[1..]) + "}" + rest;
    var after := [if |ms| == 1 then '}' else ','] + tail;
    Head(after[0], tail);
    ReadWrittenMember(ms[0], after);
    ReadMembersStep(first + after, ms[0], after);
    assert ms == [ms[0]] + ms[1..];
    if |ms| == 1 {
      assert ms == [ms[0]];
      RegroupList('}', first, [], [], rest);
    } else {
      ReadWrittenMembers(ms[1..], rest);
      RegroupList(',', first, DumpMembers(ms[1..]), "}", rest);
    }
  }

  /** json.loads(json.dumps(j)) == j, member order included. */
  lemma LoadsDump(j: Json)
    requires WellKeyed(j)
    ensures Loads(Dump(j)) == Some(j)
  {
    ReadWrittenValue(j, "");
    assert Dump(j) + "" == Dump(j);
  }

  lemma DumpInjective(a: Json, b: Json)
    requires WellKeyed(a) && WellKeyed(b)
    ensures Dump(a) == Dump(b) <==> a == b
  {
    LoadsDump(a);
    LoadsDump(b);
  }
}
