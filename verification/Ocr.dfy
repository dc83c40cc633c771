/** TextFixtureOcr.recognize: one OCR page per input page, its blocks the maximal runs of non-white-space. */
module Ocr {
  import opened Text

  type Bytes = seq<bv8>

  datatype PageArtifact = PageArtifact(pageNumber: int, content: Bytes)

  datatype OcrBlock = OcrBlock(text: string, confidence: real, pageNumber: int)

  datatype OcrPage = OcrPage(pageNumber: int, text: string, confidence: real, blocks: seq<OcrBlock>)

  /** Length of the non-white-space run at the front. */
  function RunLength(s: string): (k: nat)
    ensures k <= |s|
    ensures forall i :: 0 <= i < k ==> !IsSpace(s[i])
    ensures k < |s| ==> IsSpace(s[k])
  {
    if |s| == 0 || IsSpace(s[0]) then 0 else 1 + RunLength(s[1..])
  }

  /** re.finditer(r"\S+", text) */
  function Tokens(text: string): seq<string>
    decreases |text|
  {
    if |text| == 0 then []
    else if IsSpace(text[0]) then Tokens(text[1..])
    else [text[..RunLength(text)]] + Tokens(text[RunLength(text)..])
  }

  function Blocks(tokens: seq<string>, pageNumber: int): seq<OcrBlock> {
    seq(|tokens|, k requires 0 <= k < |tokens| => OcrBlock(tokens[k], 0.99, pageNumber))
  }

  function RecognizePage(page: PageArtifact, decode: Bytes -> string): OcrPage {
    var text := decode(page.content);
    OcrPage(page.pageNumber, text, if Strip(text) != "" then 0.99 else 0.0, Blocks(Tokens(text), page.pageNumber))
  }

  function RecognizeAll(pages: seq<PageArtifact>, decode: Bytes -> string): seq<OcrPage> {
    seq(|pages|, k requires 0 <= k < |pages| => RecognizePage(pages[k], decode))
  }

  /** `decode` is bytes.decode("utf-8", errors="replace"). */
  method Recognize(pages: seq<PageArtifact>, decode: Bytes -> string) returns (results: seq<OcrPage>)
    ensures results == RecognizeAll(pages, decode) && |results| == |pages|
  {
    results := [];
    for k := 0 to |pages|
      invariant |results| == k
      invariant forall i :: 0 <= i < k ==> results[i] == RecognizePage(pages[i], decode)
    {
      var text := decode(pages[k].content);
      var blocks := Blocks(Tokens(text), pages[k].pageNumber);
      var confidence := if Strip(text) != "" then 0.99 else 0.0;
      results := results + [OcrPage(pages[k].pageNumber, text, confidence, blocks)];
    }
  }

  // ---- Tokens are the one way to split the text at its white space ----

  /** gaps[0] + tokens[0] + gaps[1] + ... + tokens[n-1] + gaps[n] */
  function Weave(gaps: seq<string>, tokens: seq<string>): string
    requires |gaps| == |tokens| + 1
  {
    if |tokens| == 0 then gaps[0] else gaps[0] + tokens[0] + Weave(gaps[1..], tokens[1..])
  }

  ghost predicate IsToken(t: string) {
    |t| > 0 && forall c :: c in t ==> !IsSpace(c)
  }

  /** The text is the tokens, separated by white space that is missing only before the first and after the last. */
  ghost predicate IsSplit(text: string, gaps: seq<string>, tokens: seq<string>) {
    && |gaps| == |tokens| + 1
    && (forall k :: 0 <= k < |gaps| ==> Blank(gaps[k]))
    && (forall k :: 0 < k < |tokens| ==> |gaps[k]| > 0)
    && (forall k :: 0 <= k < |tokens| ==> IsToken(tokens[k]))
    && text == Weave(gaps, tokens)
  }

  lemma WiderGap(c: char, text: string, gaps: seq<string>, tokens: seq<string>)
    requires IsSpace(c) && IsSplit(text, gaps, tokens)
    ensures IsSplit([c] + text, gaps[0 := [c] + gaps[0]], tokens)
  {
    var gaps' := gaps[0 := [c] + gaps[0]];
    assert gaps'[1..] == gaps[1..];
    if |tokens| == 0 {
    } else {
      assert [c] + text == [c] + gaps[0] + tokens[0] + Weave(gaps[1..], tokens[1..]);
    }
  }

  lemma FirstToken(t: string, text: string, gaps: seq<string>, tokens: seq<string>)
    requires IsToken(t) && IsSplit(text, gaps, tokens)
    requires |text| > 0 ==> IsSpace(text[0])
    ensures IsSplit(t + text, [""] + gaps, [t] + tokens)
  {
    assert ([""] + gaps)[1..] == gaps && ([t] + tokens)[1..] == tokens;
    assert t + text == "" + t + text;
    assert |tokens| > 0 ==> tokens[0][0] in tokens[0];
  }

  lemma {:induction false} TokensSplit(text: string) returns (gaps: seq<string>)
    ensures IsSplit(text, gaps, Tokens(text))
    decreases |text|
  {
    if |text| == 0 {
      gaps := [""];
    } else if IsSpace(text[0]) {
      var rest := TokensSplit(text[1..]);
      WiderGap(text[0], text[1..], rest, Tokens(text[1..]));
      assert text == [text[0]] + text[1..];
      gaps := rest[0 := [text[0]] + rest[0]];
    } else {
      var k := RunLength(text);
      var rest := TokensSplit(text[k..]);
      FirstToken(text[..k], text[k..], rest, Tokens(text[k..]));
      assert text == text[..k] + text[k..];
      gaps := [""] + rest;
    }
  }

  /** What follows a token in a split starts with white space, or is empty. */
  lemma AfterToken(gaps: seq<string>, tokens: seq<string>)
    requires |gaps| == |tokens| + 1 && Blank(gaps[0])
    requires |tokens| > 0 ==> |gaps[0]| > 0
    ensures |Weave(gaps, tokens)| > 0 ==> IsSpace(Weave(gaps, tokens)[0])
  {
    if |gaps[0]| == 0 {
    } else {
      assert Weave(gaps, tokens)[0] == gaps[0][0] && gaps[0][0] in gaps[0];
    }
  }

  lemma RunStops(t: string, rest: string)
    requires IsToken(t) && (|rest| > 0 ==> IsSpace(rest[0]))
    ensures RunLength(t + rest) == |t|
  {
    var s := t + rest;
    assert forall i :: 0 <= i < |t| ==> s[i] == t[i] && t[i] in t;
    assert |rest| > 0 ==> s[|t|] == rest[0];
  }

  lemma {:induction false} SplitUnique(text: string, gaps: seq<string>, tokens: seq<string>)
    requires IsSplit(text, gaps, tokens)
    ensures tokens == Tokens(text)
    decreases |text|
  {
    var g := gaps[0];
    if |g| > 0 {
      var gaps' := gaps[0 := g[1..]];
      assert gaps'[1..] == gaps[1..];
      assert g == [g[0]] + g[1..] && g[0] in g;
      assert |tokens| > 0 ==> text == [g[0]] + (g[1..] + tokens[0] + Weave(gaps[1..], tokens[1..]));
      assert text[0] == g[0] && text[1..] == Weave(gaps', tokens);
      SplitUnique(text[1..], gaps', tokens);
    } else if |tokens| > 0 {
      var rest := Weave(gaps[1..], tokens[1..]);
      assert text == tokens[0] + rest;
      AfterToken(gaps[1..], tokens[1..]);
      RunStops(tokens[0], rest);
      assert text[0] == tokens[0][0] && tokens[0][0] in tokens[0];
      assert text[..|tokens[0]|] == tokens[0] && text[|tokens[0]|..] == rest;
      SplitUnique(rest, gaps[1..], tokens[1..]);
      assert tokens == [tokens[0]] + tokens[1..];
    }
  }

  /** The blocks are exactly the maximal non-white-space runs, in order. */
  lemma TokensAreTheSplit(text: string, tokens: seq<string>)
    ensures tokens == Tokens(text) <==> exists gaps :: IsSplit(text, gaps, tokens)
  {
    if tokens == Tokens(text) {
      var gaps := TokensSplit(text);
    }
    if gaps :| IsSplit(text, gaps, tokens) {
      SplitUnique(text, gaps, tokens);
    }
  }

  function Concat(tokens: seq<string>): string {
    if |tokens| == 0 then "" else tokens[0] + Concat(tokens[1..])
  }

  function WithoutSpace(s: string): string {
    if |s| == 0 then "" else (if IsSpace(s[0]) then "" else [s[0]]) + WithoutSpace(s[1..])
  }

  lemma {:induction false} WithoutSpaceOfToken(s: string, k: nat)
    requires k <= |s| && forall i :: 0 <= i < k ==> !IsSpace(s[i])
    ensures WithoutSpace(s) == s[..k] + WithoutSpace(s[k..])
  {
    if k > 0 {
      WithoutSpaceOfToken(s[1..], k - 1);
      assert s[..k] == [s[0]] + s[1..][..k - 1] && s[1..][k - 1..] == s[k..];
    } else {
      assert s[0..] == s && s[..0] == "";
    }
  }

  /** Together the blocks are the text with its white space deleted. */
  lemma {:induction false} TokensCoverText(text: string)
    ensures Concat(Tokens(text)) == WithoutSpace(text)
    decreases |text|
  {
    if |text| == 0 {
    } else {
      if IsSpace(text[0]) {
        TokensCoverText(text[1..]);
        assert WithoutSpace(text) == "" + WithoutSpace(text[1..]);
      } else {
        var k := RunLength(text);
        TokensCoverText(text[k..]);
        WithoutSpaceOfToken(text, k);
        assert Tokens(text)[1..] == Tokens(text[k..]);
      }
    }
  }

  lemma {:induction false} NoTokensIffBlank(text: string)
    ensures Tokens(text) == [] <==> Blank(text)
  {
    if |text| == 0 {
    } else {
      if IsSpace(text[0]) {
        NoTokensIffBlank(text[1..]);
        assert text == [text[0]] + text[1..];
      } else {
        assert text[0] in text;
      }
    }
  }

  /** A page's confidence is 0.99 exactly when it has a block, and 0 otherwise. */
  lemma ConfidenceIffBlocks(page: PageArtifact, decode: Bytes -> string)
    ensures var p := RecognizePage(page, decode);
            (p.confidence == 0.99 <==> |p.blocks| > 0) && (p.confidence == 0.0 <==> p.blocks == [])
  {
    var text := decode(page.content);
    var i, j := StripSpec(text);
    NoTokensIffBlank(text);
  }

  function Texts(blocks: seq<OcrBlock>): seq<string> {
    seq(|blocks|, i requires 0 <= i < |blocks| => blocks[i].text)
  }

  /** Recognition keeps the page's evidence: its number, its text, and one block a token, on that page. */
  lemma PageEvidenceKept(pages: seq<PageArtifact>, decode: Bytes -> string, k: nat)
    requires k < |pages|
    ensures var p := RecognizeAll(pages, decode)[k];
            && p.pageNumber == pages[k].pageNumber && p.text == decode(pages[k].content)
            && (exists gaps :: IsSplit(p.text, gaps, Texts(p.blocks)))
            && (forall i :: 0 <= i < |p.blocks| ==>
                  p.blocks[i].pageNumber == pages[k].pageNumber && p.blocks[i].confidence == 0.99)
  {
    var p := RecognizeAll(pages, decode)[k];
    assert Texts(p.blocks) == Tokens(p.text);
    TokensAreTheSplit(p.text, Texts(p.blocks));
  }
}
