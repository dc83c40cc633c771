/** BaselineIntelligencePipeline.run: preprocess, recognise, classify. */
module Pipeline {
  import opened Text
  import opened Ocr
  import Search
  import Classifier

  datatype IntelligenceResult =
    | Analysed(pages: seq<OcrPage>, classification: Classifier.Classification)
    | Unsupported(reason: string)

  const MIME_TYPES := {"text/plain", "application/pdf", "image/png", "image/jpeg"}

  function LowerTexts(pages: seq<OcrPage>, lower: string -> string): seq<string> {
    seq(|pages|, k requires 0 <= k < |pages| => lower(pages[k].text))
  }

  /** `decode` is UTF-8 decoding with replacement, `lower` is str.lower(). */
  function Analyse(
      content: Bytes, mimeType: string, decode: Bytes -> string, lower: string -> string): IntelligenceResult
  {
    if |content| == 0 then Unsupported("document content cannot be empty")
    else if mimeType !in MIME_TYPES then Unsupported("unsupported document type: " + mimeType)
    else
      var pages := RecognizeAll([PageArtifact(1, content)], decode);
      Analysed(pages, Classifier.Classify(Classifier.SIGNALS, LowerTexts(pages, lower)))
  }

  /** Only empty content and foreign types are refused, the empty content first; everything else is analysed. */
  lemma AnalysedIff(content: Bytes, mimeType: string, decode: Bytes -> string, lower: string -> string)
    ensures var r := Analyse(content, mimeType, decode, lower);
            var supported := {"text/plain", "application/pdf", "image/png", "image/jpeg"};
            && (r.Analysed? <==> |content| > 0 && mimeType in supported)
            && (r == Unsupported("document content cannot be empty") <==> |content| == 0)
            && (|content| > 0 && mimeType !in supported ==> r == Unsupported("unsupported document type: " + mimeType))
  {
    var empty, other := "document content cannot be empty", "unsupported document type: " + mimeType;
    assert empty[0] == 'd' && other[0] == 'u';
  }

  /** An analysed file is one page, number 1, with the decoded text; its blocks are that text split at white space,
      and it is classified on its text in lower case. */
  lemma AnalysedAsOnePage(content: Bytes, mimeType: string, decode: Bytes -> string, lower: string -> string)
    requires Analyse(content, mimeType, decode, lower).Analysed?
    ensures var r, text := Analyse(content, mimeType, decode, lower), decode(content);
            && |r.pages| == 1 && r.pages[0].pageNumber == 1 && r.pages[0].text == text
            && (exists gaps :: IsSplit(text, gaps, Texts(r.pages[0].blocks)))
            && (r.pages[0].confidence == 0.99 <==> !Blank(text)) && (r.pages[0].confidence == 0.0 <==> Blank(text))
            && r.classification == Classifier.Classify(Classifier.SIGNALS, [lower(text)])
  {
    var r, text := Analyse(content, mimeType, decode, lower), decode(content);
    var page := PageArtifact(1, content);
    PageEvidenceKept([page], decode, 0);
    ConfidenceIffBlocks(page, decode);
    NoTokensIffBlank(text);
    assert LowerTexts(r.pages, lower) == [lower(text)];
  }

  /** Lower-casing never turns white space into anything else. */
  ghost predicate KeepsBlank(lower: string -> string) {
    forall s :: Blank(s) ==> Blank(lower(s))
  }

  lemma BlankHasNoSignal(text: string, w: string, k: nat)
    requires Blank(text) && k < |w| && !IsSpace(w[k])
    ensures !Search.Contains(text, w)
  {
    forall i | 0 <= i <= |text| - |w| ensures !Search.OccursAt(text, w, i) {
      assert text[i + k] in text && text[i..i + |w|][k] == text[i + k];
    }
  }

  /** Every shipped signal starts with a letter. */
  lemma SignalsStartWithLetters()
    ensures forall l, w :: l in Classifier.SIGNALS && w in l.signals ==> |w| > 0 && !IsSpace(w[0])
  {
  }

  lemma BlankScoreIsZero(text: string, signals: set<string>)
    requires Blank(text) && forall w :: w in signals ==> |w| > 0 && !IsSpace(w[0])
    ensures Classifier.Score(text, signals) == 0
  {
    forall w | w in signals ensures !Search.Contains(text, w) {
      BlankHasNoSignal(text, w, 0);
    }
    assert (set w | w in signals && Search.Contains(text, w)) == {};
  }

  lemma BlankScoresNothing(text: string, table: seq<Classifier.Label>)
    requires Blank(text)
    requires forall l, w :: l in table && w in l.signals ==> |w| > 0 && !IsSpace(w[0])
    ensures Classifier.Scoring(Classifier.Scores(text, table)) == 0
  {
    var scores := Classifier.Scores(text, table);
    forall k | 0 <= k < |table| ensures scores[k].count == 0 {
      assert table[k] in table;
      BlankScoreIsZero(text, table[k].signals);
    }
    Classifier.TotalBound(scores, 0);
  }

  lemma BlankIsUnknown(text: string)
    requires Blank(text)
    ensures Classifier.Classify(Classifier.SIGNALS, [text]).name == "unknown"
  {
    SignalsStartWithLetters();
    Classifier.BaselineTable();
    assert Search.Join([text]) == text;
    BlankScoresNothing(text, Classifier.SIGNALS);
    Classifier.ConfidenceBounds(Classifier.SIGNALS, [text]);
  }

  /** A document given a label has at least one OCR block to show for it. */
  lemma LabelledDocumentHasBlocks(content: Bytes, mimeType: string, decode: Bytes -> string, lower: string -> string)
    requires KeepsBlank(lower)
    ensures var r := Analyse(content, mimeType, decode, lower);
            r.Analysed? && r.classification.name != "unknown" ==>
              |r.pages| == 1 && |r.pages[0].blocks| > 0 && r.pages[0].confidence == 0.99
  {
    var r := Analyse(content, mimeType, decode, lower);
    if r.Analysed? {
      var text := decode(content);
      ConfidenceIffBlocks(PageArtifact(1, content), decode);
      NoTokensIffBlank(text);
      assert LowerTexts(r.pages, lower) == [lower(text)];
      if Blank(text) {
        BlankIsUnknown(lower(text));
      }
    }
  }
}
