/** What the text of json.dumps looks like, and what json.loads does with text that json.dumps does not write. */
module JsonForm {
  import opened Basics
  import opened Json

  const DIGITS := "0123456789abcdef"
  const UPPER_DIGITS := "0123456789ABCDEF"

  // ---- Characters (RFC 8259 section 7) ----

  /** The four lower-case hexadecimal digits of one UTF-16 code unit. */
  ghost predicate IsUnit(s: string, n: nat) {
    && |s| == 4 && n < 0x10000
    && s[0] == DIGITS[n / 0x1000 % 16] && s[1] == DIGITS[n / 0x100 % 16]
    && s[2] == DIGITS[n / 0x10 % 16] && s[3] == DIGITS[n % 16]
  }

  /** Characters with a short escape. */
  ghost predicate HasShortEscape(c: char) {
    c == '\"' || c == '\\' || c as int in {8, 9, 10, 12, 13}
  }

  lemma ShortEscapes()
    ensures EscapeChar('\"') == "\\\"" && EscapeChar('\\') == "\\\\"
    ensures EscapeChar(8 as char) == "\\b" && EscapeChar(9 as char) == "\\t" && EscapeChar(10 as char) == "\\n"
    ensures EscapeChar(12 as char) == "\\f" && EscapeChar(13 as char) == "\\r"
  {
  }

  lemma HexDigitIs(d: nat)
    requires d < 16
    ensures HexDigit(d) == DIGITS[d]
  {
  }

  lemma UnitText(n: nat)
    requires n < 0x10000
    ensures IsUnit(Hex4(n), n)
  {
    HexPlaces(n);
    HexDigitIs(n / 0x1000);
    HexDigitIs(n / 0x100 % 16);
    HexDigitIs(n / 0x10 % 16);
    HexDigitIs(n % 16);
  }

  lemma TwoUnits(a: string, b: string)
    requires |a| == 4 && |b| == 4
    ensures var e := "\\u" + a + "\\u" + b;
            |e| == 12 && e[..2] == "\\u" && e[2..6] == a && e[6..8] == "\\u" && e[8..] == b
  {
  }

  lemma PairEscape(c: char)
    requires c as int >= 0x10000
    ensures var n := c as int;
            EscapeChar(c) == "\\u" + Hex4(0xD800 + (n - 0x10000) / 0x400) + "\\u" + Hex4(0xDC00 + (n - 0x10000) % 0x400)
  {
  }

  lemma SurrogateForm(c: char) returns (hi: nat, lo: nat)
    requires c as int >= 0x10000
    ensures var e := EscapeChar(c);
            && |e| == 12 && e[..2] == "\\u" && e[6..8] == "\\u"
            && IsUnit(e[2..6], hi) && IsUnit(e[8..], lo)
    ensures 0xD800 <= hi < 0xDC00 && 0xDC00 <= lo < 0xE000
    ensures c as int == 0x10000 + (hi - 0xD800) * 0x400 + (lo - 0xDC00)
  {
    var n, e := c as int, EscapeChar(c);
    hi, lo := 0xD800 + (n - 0x10000) / 0x400, 0xDC00 + (n - 0x10000) % 0x400;
    SurrogateParts(n);
    UnitText(hi);
    UnitText(lo);
    PairEscape(c);
    TwoUnits(Hex4(hi), Hex4(lo));
  }

  /** Of the other characters, those from space to tilde stand for themselves; the rest are written as their
      UTF-16 code units, a surrogate pair above U+FFFF (`SurrogateForm`). */
  lemma EscapeForm(c: char)
    requires !HasShortEscape(c) && c as int < 0x10000
    ensures var n, e := c as int, EscapeChar(c);
            if 0x20 <= n <= 0x7e then e == [c] else |e| == 6 && e[..2] == "\\u" && IsUnit(e[2..], n)
  {
    var n, e := c as int, EscapeChar(c);
    if n < 0x20 || 0x7e < n {
      UnitText(n);
      assert e == "\\u" + Hex4(n);
      assert e[2..] == Hex4(n);
    }
  }

  // ---- Words, numbers and separators ----

  lemma WordForm()
    ensures Dump(Null) == "null" && Dump(Bool(true)) == "true" && Dump(Bool(false)) == "false"
    ensures Dump(Arr([])) == "[]" && Dump(Obj([])) == "{}"
    ensures Dump(Str("")) == "\"\"" && Dump(Str("a")) == "\"a\""
  {
    assert Escape("a") == EscapeChar('a') + Escape("");
  }

  /** Nothing but the values and their separators: no white space. */
  lemma ListForm(a: Json, b: Json, key: string)
    ensures Dump(Arr([a, b])) == "[" + Dump(a) + "," + Dump(b) + "]"
    ensures Dump(Obj([Member(key, a)])) == "{" + Dump(Str(key)) + ":" + Dump(a) + "}"
  {
    var two := [a, b];
    assert two[1..] == [b] && DumpItems([b]) == Dump(b);
    assert DumpItems(two) == Dump(a) + "," + DumpItems([b]);
    assert "[" + DumpItems(two) + "]" == "[" + Dump(a) + "," + Dump(b) + "]";
    assert DumpMembers([Member(key, a)]) == DumpMember(Member(key, a));
    assert "{" + (Quote(key) + ":" + Dump(a)) + "}" == "{" + Quote(key) + ":" + Dump(a) + "}";
  }

  /** Decimal digits, most significant first, after the sign. */
  lemma NumberForm(n: nat, d: nat)
    requires d < 10
    ensures Dump(Int(d)) == [DIGITS[d]]
    ensures n > 0 ==> Dump(Int(10 * n + d)) == Dump(Int(n)) + [DIGITS[d]]
    ensures n > 0 ==> Dump(Int(0 - n)) == "-" + Dump(Int(n))
  {
    HexDigitIs(d);
    assert (10 * n + d) / 10 == n && (10 * n + d) % 10 == d;
  }

  // ---- Text that was not written by the code ----

  lemma HexEitherCase(c: char, d: nat)
    requires d < 16
    ensures HexValue(c) == Some(d) <==> c == DIGITS[d] || c == UPPER_DIGITS[d]
  {
  }

  lemma ReadCharBeyond(c: char, rest: string)
    ensures ReadChar("\\/" + rest) == Got('/', rest)
    ensures (c as int) < 0x20 ==> ReadChar([c] + rest) == Fail
    ensures c !in {'\"', '\\', '/', 'b', 'f', 'n', 'r', 't', 'u'} ==> ReadChar(['\\', c] + rest) == Fail
  {
    var s := ['\\', '/'] + rest;
    assert "\\/" + rest == s && s[2..] == rest;
    assert (['\\', c] + rest)[1] == c;
  }

  /** Text after the value is refused. */
  lemma TrailingTextRefused(j: Json, rest: string)
    requires WellKeyed(j) && |rest| > 0 && Delimits(rest)
    ensures Loads(Dump(j) + rest) == None
  {
    ReadWrittenValue(j, rest);
  }

  /** The value of the last member with the key, if any. */
  function LastValue(ms: seq<Member>, key: string): Option<Json> {
    if |ms| == 0 then None
    else if ms[|ms| - 1].key == key then Some(ms[|ms| - 1].value)
    else LastValue(ms[..|ms| - 1], key)
  }

  lemma {:induction false} PutKeys(ms: seq<Member>, m: Member)
    requires DistinctKeys(ms)
    ensures DistinctKeys(Put(ms, m))
    ensures forall x :: x in Put(ms, m) <==> x == m || (x in ms && x.key != m.key)
  {
    if |ms| == 0 {
    } else {
      var tail := ms[1..];
      PutKeys(tail, m);
      assert ms == [ms[0]] + tail;
      assert forall k :: 0 <= k < |tail| ==> tail[k] == ms[k + 1];
      if ms[0].key == m.key {
        assert forall x :: x in tail ==> x.key != m.key;
      } else {
        forall k | 0 <= k < |Put(tail, m)| ensures Put(tail, m)[k].key != ms[0].key {
          assert Put(tail, m)[k] in Put(tail, m);
        }
      }
    }
  }

  lemma {:induction false} DictKeepsLast(ms: seq<Member>)
    ensures DistinctKeys(Dict(ms))
    ensures forall m :: m in Dict(ms) <==> LastValue(ms, m.key) == Some(m.value)
  {
    if |ms| == 0 {
    } else {
      var front, last := ms[..|ms| - 1], ms[|ms| - 1];
      DictKeepsLast(front);
      PutKeys(Dict(front), last);
    }
  }

  /** An object text may name a key more than once: it reads as the object in which the last value counts. */
  lemma LastMemberWins(ms: seq<Member>) returns (kept: seq<Member>)
    requires forall m :: m in ms ==> WellKeyed(m.value)
    ensures Loads(Dump(Obj(ms))) == Some(Obj(kept))
    ensures DistinctKeys(kept)
    ensures forall m :: m in kept <==> LastValue(ms, m.key) == Some(m.value)
  {
    kept := Dict(ms);
    DictKeepsLast(ms);
    if |ms| == 0 {
      LoadsDump(Obj(ms));
    } else {
      ReadWrittenMembers(ms, "");
      ReadWrittenObj(ms, "");
      assert Dump(Obj(ms)) + "" == Dump(Obj(ms));
    }
  }
}
