/**
 * The flat text `create_timeline_content` builds from an entity's
 * `stage_history` before prompting (backend/populate_blanks.py): one piece per
 * entry, in stored order, with the linked news item's text and summary when
 * the entry names one.
 */
module StageHistory {
  import opened Wrappers

  /** A stored news item, its fields already rendered as the f-string shows them. */
  datatype NewsItem = NewsItem(text: string, summary: string)

  /**
   * One `stage_history` entry: date, stage value and, optionally, a news id, each
   * rendered as text. The id's rendering is also the key of the news lookup.
   */
  type Entry = seq<string>

  /** Entries of two or three fields render; with three, the news id must be known. */
  predicate EntryRenderable(e: Entry, news: map<string, NewsItem>) {
    |e| >= 2 && (|e| == 3 ==> e[2] in news)
  }

  predicate Renderable(entries: seq<Entry>, news: map<string, NewsItem>) {
    forall n :: 0 <= n < |entries| ==> EntryRenderable(entries[n], news)
  }

  /** What one entry adds: its date and stage, then `no news id` or the news id with the item's text and summary. */
  function EntryText(e: Entry, news: map<string, NewsItem>): string
    requires EntryRenderable(e, news)
  {
    "date: " + e[0] + "; " + "stage value: " + e[1] + "; " +
    if |e| == 2 then "no news id; "
    else if |e| == 3 then
      "news id #" + e[2] + "; " + "text: " + news[e[2]].text + "; " + "summary: " + news[e[2]].summary + "; "
    else ""
  }

  /** The whole rendering: the entries' pieces, concatenated in stored order. */
  function HistoryText(entries: seq<Entry>, news: map<string, NewsItem>): string
    requires Renderable(entries, news)
  {
    if entries == [] then ""
    else HistoryText(entries[..|entries| - 1], news) + EntryText(entries[|entries| - 1], news)
  }

  /**
   * The loop over `entity.stage_history`: `None` where the code raises (an entry
   * with fewer than two fields, or an id with no news item), otherwise the text.
   */
  method RenderHistory(entries: seq<Entry>, news: map<string, NewsItem>) returns (r: Option<string>)
    ensures r.Some? <==> Renderable(entries, news)
    ensures r.Some? ==> r.value == HistoryText(entries, news)
  {
    var text := "";
    var i := 0;
    while i < |entries|
      invariant 0 <= i <= |entries|
      invariant Renderable(entries[..i], news)
      invariant text == HistoryText(entries[..i], news)
    {
      var e := entries[i];
      if |e| < 2 || (|e| == 3 && e[2] !in news) {
        return None;
      }
      assert entries[..i + 1] == entries[..i] + [e];
      HistoryTextSnoc(entries[..i], e, news);
      text := text + EntryText(e, news);
      i := i + 1;
    }
    assert entries[..i] == entries;
    return Some(text);
  }

  /** A concatenation of renderable histories is renderable. */
  lemma RenderableAppend(a: seq<Entry>, b: seq<Entry>, news: map<string, NewsItem>)
    requires Renderable(a, news) && Renderable(b, news)
    ensures Renderable(a + b, news)
  {
    forall n | 0 <= n < |a + b|
      ensures EntryRenderable((a + b)[n], news)
    {
      if n < |a| {
        assert (a + b)[n] == a[n];
      } else {
        assert (a + b)[n] == b[n - |a|];
      }
    }
  }

  /** Appending one entry appends its piece. */
  lemma HistoryTextSnoc(a: seq<Entry>, e: Entry, news: map<string, NewsItem>)
    requires Renderable(a, news) && EntryRenderable(e, news)
    ensures Renderable(a + [e], news)
    ensures HistoryText(a + [e], news) == HistoryText(a, news) + EntryText(e, news)
  {
    RenderableAppend(a, [e], news);
    assert (a + [e])[..|a|] == a;
  }

  /** Rendering a concatenation of histories is concatenating their renderings. */
  lemma {:induction false} HistoryTextAppend(a: seq<Entry>, b: seq<Entry>, news: map<string, NewsItem>)
    requires Renderable(a, news) && Renderable(b, news)
    ensures Renderable(a + b, news)
    ensures HistoryText(a + b, news) == HistoryText(a, news) + HistoryText(b, news)
    decreases |b|
  {
    RenderableAppend(a, b, news);
    if b == [] {
      assert a + b == a;
    } else {
      var b', e := b[..|b| - 1], b[|b| - 1];
      SplitLast(a, b);
      RenderableAppend(b', [], news);
      assert b' + [] == b';
      HistoryTextAppend(a, b', news);
      HistoryTextSnoc(a + b', e, news);
      HistoryTextSnoc(b', e, news);
      ConcatAssoc(HistoryText(a, news), HistoryText(b', news), EntryText(e, news));
    }
  }

  /** `b` without its last element, then that element, rebuilds `b` and `a + b`. */
  lemma SplitLast<T>(a: seq<T>, b: seq<T>)
    requires b != []
    ensures b == b[..|b| - 1] + [b[|b| - 1]]
    ensures a + b == (a + b[..|b| - 1]) + [b[|b| - 1]]
  {
  }

  lemma ConcatAssoc(x: string, y: string, z: string)
    ensures x + y + z == x + (y + z)
  {
  }

  /** A single entry renders as its own piece. */
  lemma HistoryTextSingle(e: Entry, news: map<string, NewsItem>)
    requires EntryRenderable(e, news)
    ensures Renderable([e], news) && HistoryText([e], news) == EntryText(e, news)
  {
    assert [e][..0] == [];
  }

  /** No field or news text holds a line break. */
  predicate NoBreaks(entries: seq<Entry>, news: map<string, NewsItem>) {
    (forall n, k :: 0 <= n < |entries| && 0 <= k < |entries[n]| ==> '\n' !in entries[n][k]) &&
    (forall id :: id in news ==> '\n' !in news[id].text && '\n' !in news[id].summary)
  }

  /** No line break is inserted between entries: the text has one only where a field or news text brings it. */
  lemma {:induction false} HistoryTextNoBreak(entries: seq<Entry>, news: map<string, NewsItem>)
    requires Renderable(entries, news) && NoBreaks(entries, news)
    ensures '\n' !in HistoryText(entries, news)
    decreases |entries|
  {
    if entries != [] {
      var init := entries[..|entries| - 1];
      var e := entries[|entries| - 1];
      assert Renderable(init, news);
      assert forall k :: 0 <= k < |e| ==> '\n' !in e[k];
      assert NoBreaks(init, news) by {
        forall n, k | 0 <= n < |init| && 0 <= k < |init[n]| ensures '\n' !in init[n][k] {
          assert init[n] == entries[n];
        }
      }
      HistoryTextNoBreak(init, news);
      EntryTextNoBreak(e, news);
    }
  }

  lemma EntryTextNoBreak(e: Entry, news: map<string, NewsItem>)
    requires EntryRenderable(e, news)
    requires forall k :: 0 <= k < |e| ==> '\n' !in e[k]
    requires forall id :: id in news ==> '\n' !in news[id].text && '\n' !in news[id].summary
    ensures '\n' !in EntryText(e, news)
  {
    assert '\n' !in e[0] && '\n' !in e[1];
    if |e| == 3 {
      assert '\n' !in e[2];
    }
  }
}
