/** Substring search over pages joined with single spaces. */
module Search {
  predicate OccursAt(text: string, w: string, i: int)
    requires 0 <= i <= |text| - |w|
  {
    text[i..i + |w|] == w
  }

  /** signal in text */
  predicate Contains(text: string, w: string) {
    exists i :: 0 <= i <= |text| - |w| && OccursAt(text, w, i)
  }

  lemma ContainsIff(text: string, w: string)
    ensures Contains(text, w) <==> exists before, after :: text == before + w + after
  {
    if i :| 0 <= i <= |text| - |w| && OccursAt(text, w, i) {
      assert text == text[..i] + w + text[i + |w|..];
    }
    if before, after :| text == before + w + after {
      assert OccursAt(text, w, |before|);
    }
  }

  /** " ".join(pages) */
  function Join(pages: seq<string>): string {
    if |pages| == 0 then ""
    else if |pages| == 1 then pages[0]
    else pages[0] + " " + Join(pages[1..])
  }

  function Spaces(w: string): nat {
    if |w| == 0 then 0 else (if w[0] == ' ' then 1 else 0) + Spaces(w[1..])
  }

  lemma ContainsInside(before: string, text: string, after: string, w: string)
    requires Contains(text, w)
    ensures Contains(before + text + after, w)
  {
    var i :| 0 <= i <= |text| - |w| && OccursAt(text, w, i);
    var all := before + text + after;
    assert all[|before| + i..|before| + i + |w|] == text[i..i + |w|];
    assert OccursAt(all, w, |before| + i);
  }

  lemma {:induction false} JoinConcat(a: seq<string>, b: seq<string>)
    requires |a| > 0 && |b| > 0
    ensures Join(a + b) == Join(a) + " " + Join(b)
  {
    if |a| == 1 {
      assert (a + b)[1..] == b;
    } else {
      assert (a + b)[1..] == a[1..] + b;
      JoinConcat(a[1..], b);
    }
  }

  /** Pages put before and after never hide an occurrence. */
  lemma JoinGrows(before: seq<string>, pages: seq<string>, after: seq<string>, w: string)
    requires Contains(Join(pages), w) && |w| > 0
    ensures Contains(Join(before + pages + after), w)
  {
    assert |pages| > 0;
    var more := before + pages;
    if |before| == 0 {
      assert more == pages;
    } else {
      JoinConcat(before, pages);
      ContainsInside(Join(before) + " ", Join(pages), "", w);
      assert Join(more) == Join(before) + " " + Join(pages) + "";
    }
    if |after| == 0 {
      assert more + after == more;
    } else {
      JoinConcat(more, after);
      ContainsInside("", Join(more), " " + Join(after), w);
      assert Join(more + after) == "" + Join(more) + (" " + Join(after));
    }
  }

  lemma {:induction false} SpacesConcat(a: string, b: string)
    ensures Spaces(a + b) == Spaces(a) + Spaces(b)
  {
    if |a| == 0 {
      assert a + b == b;
    } else {
      assert (a + b)[1..] == a[1..] + b;
      SpacesConcat(a[1..], b);
    }
  }

  /** Text that crosses the first page boundary. */
  lemma CrossesBoundary(page: string, rest: string, v: string)
    requires v <= page + " " + rest && |v| > |page|
    ensures var v' := v[|page| + 1..];
            v == page + " " + v' && v' <= rest && Spaces(v) == Spaces(page) + 1 + Spaces(v')
  {
    var v' := v[|page| + 1..];
    var all := page + " " + rest;
    assert v == all[..|v|];
    assert all[..|v|][|page| + 1..] == rest[..|v'|];
    assert v == page + " " + v';
    SpacesConcat(page + " ", v');
    SpacesConcat(page, " ");
    assert Spaces(" ") == 1 + Spaces(" "[1..]);
  }

  /** A prefix with k spaces lies within the first k + 1 pages. */
  lemma {:induction false} PrefixWindow(pages: seq<string>, v: string) returns (j: nat)
    requires |pages| > 0 && v <= Join(pages)
    ensures 0 < j <= |pages| && j <= Spaces(v) + 1
    ensures v <= Join(pages[..j])
  {
    if |v| <= |pages[0]| || |pages| == 1 {
      j := 1;
      assert pages[..1] == [pages[0]];
      assert |pages| > 1 ==> v == Join(pages)[..|v|];
    } else {
      var tail := pages[1..];
      CrossesBoundary(pages[0], Join(tail), v);
      var v' := v[|pages[0]| + 1..];
      var k := PrefixWindow(tail, v');
      j := k + 1;
      assert pages[..j] == [pages[0]] + tail[..k];
      JoinConcat([pages[0]], tail[..k]);
      var joined := Join(tail[..k]);
      assert v == (pages[0] + " " + joined)[..|v|];
    }
  }

  ghost predicate InWindow(pages: seq<string>, w: string, i: int, j: int) {
    0 <= i < j <= |pages| && Contains(Join(pages[i..j]), w)
  }

  /** Dropping part of the first page drops the same part of the joined text. */
  lemma JoinDropFront(page: string, rest: seq<string>, i: nat)
    requires i <= |page|
    ensures Join([page] + rest)[i..] == Join([page[i..]] + rest)
    ensures i <= |Join([page] + rest)|
  {
    assert ([page] + rest)[1..] == rest && ([page[i..]] + rest)[1..] == rest;
  }

  lemma SuffixContains(text: string, i: nat, w: string)
    requires i <= |text| && w <= text[i..]
    ensures Contains(text, w)
  {
    assert text[i..][..|w|] == text[i..i + |w|];
    assert OccursAt(text, w, i);
  }

  /** An occurrence starting on the first page lies within the first k + 1 pages. */
  lemma FirstPageWindow(pages: seq<string>, w: string, i: nat) returns (j: nat)
    requires |pages| > 0 && i <= |pages[0]| && i <= |Join(pages)| - |w| && OccursAt(Join(pages), w, i)
    ensures 0 < j <= |pages| && j <= Spaces(w) + 1 && InWindow(pages, w, 0, j)
  {
    var rest := pages[1..];
    var cut := [pages[0][i..]] + rest;
    assert pages == [pages[0]] + rest;
    JoinDropFront(pages[0], rest, i);
    assert w == Join(pages)[i..][..|w|];
    j := PrefixWindow(cut, w);
    assert cut[..j] == [pages[0][i..]] + rest[..j - 1] && pages[0..j] == [pages[0]] + rest[..j - 1];
    JoinDropFront(pages[0], rest[..j - 1], i);
    SuffixContains(Join(pages[0..j]), i, w);
  }

  lemma SliceOfTail(pages: seq<string>, i: nat, j: nat)
    requires i <= j < |pages|
    ensures pages[1..][i..j] == pages[i + 1..j + 1]
  {
  }

  lemma {:induction false} OccurrenceWindow(pages: seq<string>, w: string, at: nat) returns (i: nat, j: nat)
    requires |w| > 0 && at <= |Join(pages)| - |w| && OccursAt(Join(pages), w, at)
    ensures j <= i + Spaces(w) + 1 && InWindow(pages, w, i, j)
  {
    if at <= |pages[0]| {
      i := 0;
      j := FirstPageWindow(pages, w, at);
    } else {
      var tail := pages[1..];
      var off := |pages[0]| + 1;
      assert Join(pages)[at..at + |w|] == Join(tail)[at - off..at - off + |w|];
      i, j := OccurrenceWindow(tail, w, at - off);
      SliceOfTail(pages, i, j);
      i, j := i + 1, j + 1;
    }
  }

  lemma WindowContains(pages: seq<string>, w: string, i: nat, j: nat)
    requires |w| > 0 && InWindow(pages, w, i, j)
    ensures Contains(Join(pages), w)
  {
    JoinGrows(pages[..i], pages[i..j], pages[j..], w);
    assert pages[..i] + pages[i..j] + pages[j..] == pages;
  }

  /** A non-empty signal with k spaces occurs in the joined text exactly when it occurs in the join of at
      most k + 1 consecutive pages. */
  lemma PageWindow(pages: seq<string>, w: string)
    requires |w| > 0
    ensures Contains(Join(pages), w) <==> exists i, j :: InWindow(pages, w, i, j) && j - i <= Spaces(w) + 1
  {
    if Contains(Join(pages), w) {
      var at :| 0 <= at <= |Join(pages)| - |w| && OccursAt(Join(pages), w, at);
      var i, j := OccurrenceWindow(pages, w, at);
      assert InWindow(pages, w, i, j);
    }
    if i, j :| InWindow(pages, w, i, j) && j - i <= Spaces(w) + 1 {
      WindowContains(pages, w, i, j);
    }
  }

  /** A signal without spaces occurs in the joined text exactly when it occurs on some page. */
  lemma SpaceFreeSignal(pages: seq<string>, w: string)
    requires |w| > 0 && Spaces(w) == 0
    ensures Contains(Join(pages), w) <==> exists p :: p in pages && Contains(p, w)
  {
    PageWindow(pages, w);
    if i, j :| InWindow(pages, w, i, j) && j - i <= 1 {
      assert pages[i..j] == [pages[i]];
      assert pages[i] in pages;
    }
    if p :| p in pages && Contains(p, w) {
      var i :| 0 <= i < |pages| && pages[i] == p;
      assert pages[i..i + 1] == [p];
      assert InWindow(pages, w, i, i + 1);
    }
  }

  /** So the order of the pages does not matter to it, nor how often a page is repeated. */
  lemma PageOrderIrrelevant(pages: seq<string>, pages': seq<string>, w: string)
    requires |w| > 0 && Spaces(w) == 0
    requires forall p :: p in pages <==> p in pages'
    ensures Contains(Join(pages), w) <==> Contains(Join(pages'), w)
  {
    SpaceFreeSignal(pages, w);
    SpaceFreeSignal(pages', w);
  }
}
