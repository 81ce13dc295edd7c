/**
 * Recovering a record from the free text a language model returns
 * (`create_summary_content` and `create_timeline_content` in
 * backend/populate_blanks.py): cut the text from the first `{` to the last `}`,
 * escape line breaks (timeline only), parse, and read the wanted keys.
 */
module ResponseExtraction {
  import opened Wrappers
  import PyStr
  import Json

  // ----- Brace-span slicing -----

  /** `t[p]` is the first `{` of `t`, `t[q]` its last `}`, and the one comes before the other. */
  predicate BraceSpan(t: string, p: int, q: int) {
    0 <= p < q < |t| && t[p] == '{' && t[q] == '}' && '{' !in t[..p] && '}' !in t[q + 1..]
  }

  /** Some `{` comes before some `}`. */
  predicate HasBraceSpan(t: string) {
    exists i, j :: 0 <= i < j < |t| && t[i] == '{' && t[j] == '}'
  }

  /** The first `{` and the last `}` are where `find` and `rfind` report them. */
  lemma BraceSpanIsFindRFind(t: string, p: int, q: int)
    requires BraceSpan(t, p, q)
    ensures p == PyStr.Find(t, '{') && q == PyStr.RFind(t, '}')
  {
  }

  /** A `{` before a `}` exists exactly when `find` and `rfind` report such a pair. */
  lemma HasBraceSpanFind(t: string)
    ensures HasBraceSpan(t) <==> BraceSpan(t, PyStr.Find(t, '{'), PyStr.RFind(t, '}'))
  {
    var p, q := PyStr.Find(t, '{'), PyStr.RFind(t, '}');
    if HasBraceSpan(t) {
      var i, j :| 0 <= i < j < |t| && t[i] == '{' && t[j] == '}';
      assert t[i] in t && t[j] in t;
    }
    if BraceSpan(t, p, q) {
      assert t[p] == '{' && t[q] == '}';
    }
  }

  /**
   * `content[start:end + 1]` guarded by `start != -1 and end != -1 and start < end`,
   * with `start = content.find('{')` and `end = content.rfind('}')`.
   */
  function SliceBraces(t: string): (r: string)
    ensures HasBraceSpan(t) <==> BraceSpan(t, PyStr.Find(t, '{'), PyStr.RFind(t, '}'))
    ensures forall p, q | BraceSpan(t, p, q) :: r == t[p..q + 1]
    ensures !HasBraceSpan(t) ==> r == t
  {
    var start := PyStr.Find(t, '{');
    var end := PyStr.RFind(t, '}');
    HasBraceSpanFind(t);
    assert forall p, q | BraceSpan(t, p, q) :: p == start && q == end by {
      forall p, q | BraceSpan(t, p, q) ensures p == start && q == end {
        BraceSpanIsFindRFind(t, p, q);
      }
    }
    if start != -1 && end != -1 && start < end then
      t[start..end + 1]
    else
      t
  }

  /** When a `{` comes before a `}`, the slice starts with `{` and ends with `}`. */
  lemma SliceBracesBounds(t: string)
    requires HasBraceSpan(t)
    ensures var r := SliceBraces(t); 2 <= |r| && r[0] == '{' && r[|r| - 1] == '}'
  {
    var p, q := PyStr.Find(t, '{'), PyStr.RFind(t, '}');
    assert BraceSpan(t, p, q);
    var r := t[p..q + 1];
    assert SliceBraces(t) == r;
    assert r[0] == t[p] && r[|r| - 1] == t[q];
  }

  /** A text that begins with `{` and ends with `}` is left as it is. */
  lemma SliceBracesKeepsObject(t: string)
    requires 2 <= |t| && t[0] == '{' && t[|t| - 1] == '}'
    ensures SliceBraces(t) == t
  {
    assert BraceSpan(t, 0, |t| - 1);
    assert t[0..|t|] == t;
  }

  /** Slicing twice is slicing once. */
  lemma SliceBracesIdempotent(t: string)
    ensures SliceBraces(SliceBraces(t)) == SliceBraces(t)
  {
    if HasBraceSpan(t) {
      SliceBracesBounds(t);
      SliceBracesKeepsObject(SliceBraces(t));
    }
  }

  /** Prose before the object without a `{` and prose after it without a `}` is cut away. */
  lemma SliceBracesDropsProse(p: string, o: string, q: string)
    requires '{' !in p && '}' !in q
    requires 2 <= |o| && o[0] == '{' && o[|o| - 1] == '}'
    ensures SliceBraces(p + o + q) == o
  {
    var t := p + o + q;
    assert t[..|p|] == p;
    assert t[|p| + |o|..] == q;
    assert BraceSpan(t, |p|, |p| + |o| - 1);
    assert t[|p|..|p| + |o|] == o;
  }

  // ----- The timeline fast path -----

  /** `\s` in a `str` pattern: the characters `str.isspace()` accepts. */
  predicate IsRegexSpace(c: char) {
    c == ' ' || ('\t' <= c <= '\r') || ('\U{1C}' <= c <= '\U{1F}') || c == '\U{85}' || c == '\U{A0}' ||
    c == '\U{1680}' || ('\U{2000}' <= c <= '\U{200A}') || c == '\U{2028}' || c == '\U{2029}' ||
    c == '\U{202F}' || c == '\U{205F}' || c == '\U{3000}'
  }

  /** The end of the run of `\s` characters starting at `i`. */
  function SkipSpaces(u: string, i: nat): (j: nat)
    requires i <= |u|
    ensures i <= j <= |u|
    ensures j < |u| ==> !IsRegexSpace(u[j])
    ensures forall k :: i <= k < j ==> IsRegexSpace(u[k])
    decreases |u| - i
  {
    if i < |u| && IsRegexSpace(u[i]) then SkipSpaces(u, i + 1) else i
  }

  /** `\s*,?\s*` matches all of `z`: blanks with at most one comma among them. */
  predicate ClosingRun(z: string) {
    var c := SkipSpaces(z, 0);
    c == |z| || (z[c] == ',' && SkipSpaces(z, c + 1) == |z|)
  }

  /** `.*?"\s*,?\s*` matches all of `w`: a quote with no line break before it, then a closing run. */
  predicate ValueTail(w: string) {
    exists k :: 0 <= k < |w| && w[k] == '"' && '\n' !in w[..k] && ClosingRun(w[k + 1..])
  }

  /** The key the fast path looks for, with its quotes and the colon. */
  const TimelineKey: string := "\"timeline\":"

  /**
   * The pattern `^\{\s*"timeline":\s*".*?"\s*,?\s*\}` matches all of `t`, up to
   * the very end.
   */
  predicate TimelineShape(t: string) {
    2 <= |t| && t[0] == '{' && t[|t| - 1] == '}' &&
    var u := t[1..|t| - 1];
    var a := SkipSpaces(u, 0);
    a + |TimelineKey| <= |u| && u[a..a + |TimelineKey|] == TimelineKey &&
    var b := SkipSpaces(u, a + |TimelineKey|);
    b < |u| && u[b] == '"' && ValueTail(u[b + 1..])
  }

  /**
   * `re.search(pattern, content)` as the code has it: without `re.MULTILINE`
   * the closing `$` also matches just before a final line break.
   */
  predicate FastPathAsWritten(t: string) {
    TimelineShape(t) || (1 <= |t| && t[|t| - 1] == '\n' && TimelineShape(t[..|t| - 1]))
  }

  /** The fast path as intended: the text is exactly one object of the expected shape. */
  predicate FastPath(t: string) {
    TimelineShape(t)
  }

  /** Whenever the fast path is taken, slicing would have returned the text unchanged. */
  lemma FastPathKeepsText(t: string)
    requires FastPath(t)
    ensures SliceBraces(t) == t
  {
    SliceBracesKeepsObject(t);
  }

  /** The text the timeline path hands to the parser: sliced unless the fast path applies, then every line break escaped. */
  function SanitizeTimeline(t: string): (r: string)
    ensures PyStr.NoNewline(r)
  {
    PyStr.EscapeNewlines(if FastPath(t) then t else SliceBraces(t))
  }

  function SanitizeTimelineAsWritten(t: string): (r: string)
    ensures PyStr.NoNewline(r)
  {
    PyStr.EscapeNewlines(if FastPathAsWritten(t) then t else SliceBraces(t))
  }

  /** With the intended fast path, sanitizing is slicing followed by escaping, whatever the text. */
  lemma SanitizeTimelineIsSliceThenEscape(t: string)
    ensures SanitizeTimeline(t) == PyStr.EscapeNewlines(SliceBraces(t))
  {
    if FastPath(t) {
      FastPathKeepsText(t);
    }
  }

  /** `data.get('timeline')` after `json.loads`; a parse failure gives `None`. */
  function TimelineOf(content: string): (r: Option<string>)
    ensures r.Some? ==> Json.Parse(content).Some?
  {
    var data := Json.Parse(content);
    if data.None? then None else Json.Get(data.value, "timeline")
  }

  /** The timeline `create_timeline_content` returns for the model's reply `t`. */
  function ExtractTimeline(t: string): Option<string> {
    TimelineOf(SanitizeTimeline(t))
  }

  /** The timeline the code as written returns: its fast-path test also admits a final line break. */
  function ExtractTimelineAsWritten(t: string): Option<string> {
    TimelineOf(SanitizeTimelineAsWritten(t))
  }

  /**
   * The two fast-path tests differ only on a reply that is exactly an object of
   * the fast-path shape followed by one line break: around an object between
   * prose without braces, any other reply is treated alike by both.
   */
  lemma AsWrittenAround(p: string, o: string, q: string)
    requires '{' !in p && '}' !in q && 1 <= |o| && o[|o| - 1] == '}'
    requires p != "" || q != "\n"
    ensures FastPathAsWritten(p + o + q) == FastPath(p + o + q)
    ensures ExtractTimelineAsWritten(p + o + q) == ExtractTimeline(p + o + q)
  {
    var t := p + o + q;
    if q == "" {
      assert t[|t| - 1] == '}';
    } else if q == "\n" {
      var u := t[..|t| - 1];
      assert u == p + o;
      assert u[0] == p[0];
    } else if |q| == 1 {
      assert t[|t| - 1] == q[0];
    } else {
      var u := t[..|t| - 1];
      assert u[|u| - 1] == q[|q| - 2];
    }
  }

  // ----- Summary extraction -----

  /** The five values `create_summary_content` returns. */
  datatype SummaryFields = SummaryFields(
    summary: Option<string>,
    dateStarted: Option<string>,
    dateEnded: Option<string>,
    corpFam: Option<string>,
    category: Option<string>)

  const NoFields := SummaryFields(None, None, None, None, None)

  /** The five `data.get` reads. */
  function FieldsOf(obj: Json.Object): SummaryFields {
    SummaryFields(Json.Get(obj, "summary"), Json.Get(obj, "date_started"), Json.Get(obj, "date_ended"),
                  Json.Get(obj, "corp_fam"), Json.Get(obj, "category"))
  }

  /**
   * The summary fields read from the reply `t`: sliced, not escaped, parsed; all
   * `None` when the parse fails (the five names keep the `None` they were
   * initialised with), otherwise each key's string value or `None`.
   */
  function ExtractSummary(t: string): SummaryFields {
    match Json.Parse(SliceBraces(t))
    case None => NoFields
    case Some(obj) => FieldsOf(obj)
  }

  // ----- What the timeline path recovers -----

  /** A string literal as a model writes it: line breaks left raw inside the quotes. */
  function RawQuote(v: string): string {
    "\"" + v + "\""
  }

  function RawMemberText(key: string, v: string): string {
    RawQuote(key) + ": " + RawQuote(v)
  }

  function RawMembersText(pairs: seq<(string, string)>): string
    requires |pairs| >= 1
  {
    RawMemberText(pairs[0].0, pairs[0].1) + if |pairs| == 1 then "" else ", " + RawMembersText(pairs[1..])
  }

  /** A one-line object whose string values may hold raw line breaks. */
  function RawObjectText(pairs: seq<(string, string)>): string {
    "{" + (if pairs == [] then "" else RawMembersText(pairs)) + "}"
  }

  lemma EscapeRawQuote(v: string)
    ensures PyStr.EscapeNewlines(RawQuote(v)) == Json.Quote(v)
  {
    PyStr.EscapeNewlinesAppend("\"" + v, "\"");
    PyStr.EscapeNewlinesAppend("\"", v);
    PyStr.EscapeNewlinesIdentity("\"");
  }

  lemma EscapeRawMember(key: string, v: string)
    ensures PyStr.EscapeNewlines(RawMemberText(key, v)) == Json.MemberText(key, v)
  {
    PyStr.EscapeNewlinesAppend(RawQuote(key) + ": ", RawQuote(v));
    PyStr.EscapeNewlinesAppend(RawQuote(key), ": ");
    PyStr.EscapeNewlinesIdentity(": ");
    EscapeRawQuote(key);
    EscapeRawQuote(v);
  }

  lemma {:induction false} EscapeRawMembers(pairs: seq<(string, string)>)
    requires |pairs| >= 1
    ensures PyStr.EscapeNewlines(RawMembersText(pairs)) == Json.MembersText(pairs)
    decreases |pairs|
  {
    var m := RawMemberText(pairs[0].0, pairs[0].1);
    EscapeRawMember(pairs[0].0, pairs[0].1);
    if |pairs| == 1 {
      assert RawMembersText(pairs) == m + "";
      PyStr.EscapeNewlinesAppend(m, "");
    } else {
      EscapeRawMembers(pairs[1..]);
      PyStr.EscapeNewlinesAppend(m, ", " + RawMembersText(pairs[1..]));
      PyStr.EscapeNewlinesAppend(", ", RawMembersText(pairs[1..]));
      PyStr.EscapeNewlinesIdentity(", ");
    }
  }

  /** Escaping the line breaks of a raw object yields exactly the JSON text of the same members. */
  lemma EscapeRawObject(pairs: seq<(string, string)>)
    ensures PyStr.EscapeNewlines(RawObjectText(pairs)) == Json.ObjectText(pairs)
  {
    var body := if pairs == [] then "" else RawMembersText(pairs);
    PyStr.EscapeNewlinesAppend("{" + body, "}");
    PyStr.EscapeNewlinesAppend("{", body);
    PyStr.EscapeNewlinesIdentity("{");
    PyStr.EscapeNewlinesIdentity("}");
    if pairs != [] {
      EscapeRawMembers(pairs);
    }
  }

  /**
   * With the corrected fast path, a reply holding one raw object between prose
   * without braces yields the value of its last `timeline` member (none if it
   * has no such member), line breaks inside the values included.
   */
  lemma TimelineRecoveredCorrected(p: string, pairs: seq<(string, string)>, q: string)
    requires '{' !in p && '}' !in q && Json.AllEncodable(pairs)
    ensures ExtractTimeline(p + RawObjectText(pairs) + q) == Json.LastValue(pairs, "timeline")
  {
    var o := RawObjectText(pairs);
    SanitizeTimelineIsSliceThenEscape(p + o + q);
    SliceBracesDropsProse(p, o, q);
    EscapeRawObject(pairs);
    Json.ParseObjectText(pairs);
    Json.CollectGet(map[], pairs, "timeline");
  }

  /**
   * As written, the same holds for every such reply except the object followed
   * by exactly one line break, which `FinalNewlineAsWritten` covers.
   */
  lemma TimelineRecovered(p: string, pairs: seq<(string, string)>, q: string)
    requires '{' !in p && '}' !in q && Json.AllEncodable(pairs)
    requires p != "" || q != "\n"
    ensures ExtractTimelineAsWritten(p + RawObjectText(pairs) + q) == Json.LastValue(pairs, "timeline")
  {
    AsWrittenAround(p, RawObjectText(pairs), q);
    TimelineRecoveredCorrected(p, pairs, q);
  }

  /** Whatever the fast path decides, a braced object between prose without braces is what gets escaped. */
  lemma SanitizeSlicedObject(p: string, o: string, q: string)
    requires '{' !in p && '}' !in q
    requires 2 <= |o| && o[0] == '{' && o[|o| - 1] == '}'
    ensures SanitizeTimeline(p + o + q) == PyStr.EscapeNewlines(o)
  {
    SanitizeTimelineIsSliceThenEscape(p + o + q);
    SliceBracesDropsProse(p, o, q);
  }

  /** Escaping a text that opens with `{` and a line break gives `{`, a backslash, `n`, ... */
  lemma EscapeOpeningBreak(o: string)
    requires 2 <= |o| && o[0] == '{' && o[1] == '\n'
    ensures var e := PyStr.EscapeNewlines(o); 3 <= |e| && e[0] == '{' && e[1] == '\\' && e[2] == 'n'
  {
    assert o == "{\n" + o[2..];
    PyStr.EscapeNewlinesAppend("{\n", o[2..]);
    PyStr.EscapeNewlinesAppend("{", "\n");
    PyStr.EscapeNewlinesIdentity("{");
  }

  /**
   * A reply whose object is pretty-printed, its first line break right after the
   * opening brace, yields no timeline: that line break is escaped too, and the
   * escaped text is no longer JSON.
   */
  lemma PrettyPrintedRejected(p: string, o: string, q: string)
    requires '{' !in p && '}' !in q
    requires 2 <= |o| && o[0] == '{' && o[1] == '\n' && o[|o| - 1] == '}'
    ensures ExtractTimeline(p + o + q).None?
    ensures ExtractTimelineAsWritten(p + o + q).None?
  {
    SanitizeSlicedObject(p, o, q);
    EscapeOpeningBreak(o);
    Json.ParseRejectsBadStart(PyStr.EscapeNewlines(o));
    if p != "" || q != "\n" {
      AsWrittenAround(p, o, q);
    } else {
      var t := p + o + q;
      assert t == o + "\n";
      EscapeOpeningBreak(t);
      Json.ParseRejectsBadStart(PyStr.EscapeNewlines(t));
    }
  }

  /** The text the HTTP-error handler substitutes for a reply. */
  const Placeholder: string := "No GenAI content available. {\"timeline\": None}"

  /** A one-member object whose value is Python's `None`, as the placeholder writes it. */
  function NoneObject(key: string): string {
    "{\"" + key + "\": None}"
  }

  /** An object whose only value is Python's `None` is rejected: `None` is not a JSON value. */
  lemma NoneValueRejected(key: string)
    requires Json.Encodable(key) && PyStr.NoNewline(key)
    ensures Json.Parse(NoneObject(key)).None?
  {
    var t := NoneObject(key);
    PyStr.EscapeNewlinesIdentity(key);
    assert t[1..|key| + 3] == Json.Quote(key);
    Json.ParseQuoted(t, 1, key);
    Json.ParseRejectsBadValue(t, key, |key| + 3);
  }

  /** An object at the end of a reply, after prose without braces, is what gets escaped. */
  lemma SanitizeTrailingObject(p: string, o: string)
    requires '{' !in p
    requires 2 <= |o| && o[0] == '{' && o[|o| - 1] == '}'
    ensures SanitizeTimeline(p + o) == PyStr.EscapeNewlines(o)
  {
    SanitizeSlicedObject(p, o, "");
    assert p + o + "" == p + o;
  }

  /** A reply whose object holds Python's `None` as a value yields no timeline. */
  lemma NoneValueReplyRejected(p: string, key: string)
    requires '{' !in p && Json.Encodable(key) && PyStr.NoNewline(key)
    ensures ExtractTimeline(p + NoneObject(key)).None?
    ensures ExtractTimelineAsWritten(p + NoneObject(key)).None?
  {
    var o := NoneObject(key);
    assert ExtractTimeline(p + o).None? by {
      NoneValueRejected(key);
      assert '\n' !in o;
      PyStr.EscapeNewlinesIdentity(o);
      SanitizeTrailingObject(p, o);
    }
    AsWrittenAround(p, o, "");
    assert p + o + "" == p + o;
  }

  /** The placeholder never yields a timeline. */
  lemma PlaceholderRejected()
    ensures ExtractTimeline(Placeholder).None?
    ensures ExtractTimelineAsWritten(Placeholder).None?
  {
    assert Placeholder == "No GenAI content available. " + NoneObject("timeline");
    NoneValueReplyRejected("No GenAI content available. ", "timeline");
  }

  // ----- The fast path's shape -----

  /** A run of `\s` characters from `i` to `n` that stops at `n` is skipped in one go. */
  lemma {:induction false} SkipSpacesRun(u: string, i: nat, n: nat)
    requires i <= n <= |u|
    requires forall k :: i <= k < n ==> IsRegexSpace(u[k])
    requires n == |u| || !IsRegexSpace(u[n])
    ensures SkipSpaces(u, i) == n
    decreases n - i
  {
    if i < n {
      SkipSpacesRun(u, i + 1, n);
    }
  }

  /**
   * `{`, blanks, the key, one space, a quoted value without quote or line break,
   * then a closing run and `}` matches the fast-path pattern.
   */
  lemma TimelineShapeOf(s: string, v: string, z: string)
    requires forall k :: 0 <= k < |s| ==> IsRegexSpace(s[k])
    requires '\n' !in v && '"' !in v && ClosingRun(z)
    ensures TimelineShape("{" + s + TimelineKey + " \"" + v + "\"" + z + "}")
  {
    var t := "{" + s + TimelineKey + " \"" + v + "\"" + z + "}";
    var u := s + TimelineKey + " \"" + v + "\"" + z;
    assert t[1..|t| - 1] == u;
    var a := |s|;
    SkipSpacesRun(u, 0, a);
    assert u[a..a + |TimelineKey|] == TimelineKey;
    var b := a + |TimelineKey| + 1;
    assert u[b - 1] == ' ' && u[b] == '"';
    SkipSpacesRun(u, a + |TimelineKey|, b);
    var w := u[b + 1..];
    assert w == v + "\"" + z;
    assert w[|v|] == '"' && w[..|v|] == v && w[|v| + 1..] == z;
  }

  /** A one-line timeline object with a comma after its member, as the prompt's example shows it. */
  function TrailingCommaReply(v: string): string {
    "{\"timeline\": \"" + v + "\",}"
  }

  lemma TrailingCommaShape(v: string)
    requires '\n' !in v && '"' !in v
    ensures FastPath(TrailingCommaReply(v))
  {
    assert ClosingRun(",") by {
      SkipSpacesRun(",", 0, 0);
      SkipSpacesRun(",", 1, 1);
    }
    assert TrailingCommaReply(v) == "{" + "" + TimelineKey + " \"" + v + "\"" + "," + "}";
    TimelineShapeOf("", v, ",");
  }

  /** The rendered member of a value without line breaks is the value between quotes. */
  lemma MemberTextPlain(key: string, v: string)
    requires PyStr.NoNewline(key) && PyStr.NoNewline(v)
    ensures Json.MemberText(key, v) == "\"" + key + "\": \"" + v + "\""
  {
    PyStr.EscapeNewlinesIdentity(key);
    PyStr.EscapeNewlinesIdentity(v);
  }

  lemma TrailingCommaParse(t: string, key: string, v: string)
    requires Json.Encodable(key) && Json.Encodable(v) && PyStr.NoNewline(key) && PyStr.NoNewline(v)
    requires t == "{\"" + key + "\": \"" + v + "\",}"
    ensures Json.Parse(t).None?
  {
    MemberTextPlain(key, v);
    var m := Json.MemberText(key, v);
    assert t == "{" + m + "," + "}";
    assert t[..|m| + 2] == "{" + m + ",";
    Json.SkipWsNone(t, |m| + 2);
    Json.ParseRejectsTrailingComma(t, key, v);
  }

  lemma TrailingCommaReplyParse(v: string)
    requires Json.Encodable(v) && PyStr.NoNewline(v)
    ensures PyStr.NoNewline(TrailingCommaReply(v)) && Json.Parse(TrailingCommaReply(v)).None?
  {
    TrailingCommaParse(TrailingCommaReply(v), "timeline", v);
  }

  /**
   * A single-line object with a trailing comma takes the fast path, and then
   * yields no timeline, because the comma is not allowed there.
   */
  lemma TrailingCommaTakesFastPath(v: string)
    requires Json.Encodable(v) && PyStr.NoNewline(v)
    ensures FastPath(TrailingCommaReply(v))
    ensures ExtractTimeline(TrailingCommaReply(v)).None?
    ensures ExtractTimelineAsWritten(TrailingCommaReply(v)).None?
  {
    var t := TrailingCommaReply(v);
    AsWrittenAround("", t, "");
    assert "" + t + "" == t;
    TrailingCommaShape(v);
    TrailingCommaReplyParse(v);
    PyStr.EscapeNewlinesIdentity(t);
  }

  /** The layout of the prompt's own example: a line break after `{`, two spaces, the member, a comma, a space and a line break before `}`. */
  function PromptExampleReply(v: string): string {
    "{\n  \"timeline\": \"" + v + "\", \n}"
  }

  lemma PromptExampleShape(v: string)
    requires '\n' !in v && '"' !in v
    ensures FastPath(PromptExampleReply(v))
  {
    assert ClosingRun(", \n") by {
      SkipSpacesRun(", \n", 0, 0);
      SkipSpacesRun(", \n", 1, 3);
    }
    assert PromptExampleReply(v) == "{" + "\n  " + TimelineKey + " \"" + v + "\"" + ", \n" + "}";
    TimelineShapeOf("\n  ", v, ", \n");
  }

  /**
   * A reply laid out like the prompt's example takes the fast path, and yields no
   * timeline: the line break after `{` is escaped along with the rest.
   */
  lemma PromptExampleRejected(v: string)
    requires '\n' !in v && '"' !in v
    ensures FastPath(PromptExampleReply(v))
    ensures ExtractTimeline(PromptExampleReply(v)).None?
    ensures ExtractTimelineAsWritten(PromptExampleReply(v)).None?
  {
    var o := PromptExampleReply(v);
    assert o == "" + o + "";
    assert o[0] == '{' && o[1] == '\n' && o[|o| - 1] == '}';
    PrettyPrintedRejected("", o, "");
    PromptExampleShape(v);
  }

  // ----- A final line break and the fast path -----

  /** A one-line object with a single member whose value is a string. */
  function OneMemberReply(key: string, v: string): string {
    "{\"" + key + "\": \"" + v + "\"}"
  }

  /** A one-line timeline object. */
  function SingleLineReply(v: string): string {
    OneMemberReply("timeline", v)
  }

  lemma SingleLineReplyShape(v: string)
    requires '\n' !in v && '"' !in v
    ensures TimelineShape(SingleLineReply(v))
  {
    assert ClosingRun("") by { SkipSpacesRun("", 0, 0); }
    assert SingleLineReply(v) == "{" + "" + TimelineKey + " \"" + v + "\"" + "" + "}";
    TimelineShapeOf("", v, "");
  }

  lemma OneMemberRaw(key: string, v: string)
    ensures OneMemberReply(key, v) == RawObjectText([(key, v)])
  {
    assert RawMembersText([(key, v)]) == RawMemberText(key, v) + "";
  }

  lemma OneMemberJson(key: string, v: string)
    requires PyStr.NoNewline(key) && PyStr.NoNewline(v)
    ensures OneMemberReply(key, v) == Json.ObjectText([(key, v)])
  {
    assert Json.MembersText([(key, v)]) == Json.MemberText(key, v) + "";
    MemberTextPlain(key, v);
  }

  /** The JSON text of a one-member object followed by an escaped line break does not parse. */
  lemma EscapedTrailerRejected(t: string, key: string, v: string)
    requires Json.Encodable(key) && PyStr.NoNewline(key) && Json.Encodable(v) && PyStr.NoNewline(v)
    requires t == OneMemberReply(key, v) + "\\n"
    ensures Json.Parse(t).None?
  {
    var o := OneMemberReply(key, v);
    OneMemberJson(key, v);
    assert Json.At(t, 0, Json.ObjectText([(key, v)])) by { assert t[0..|o|] == o; }
    Json.ParseObjectAt(t, [(key, v)]);
    Json.SkipWsNone(t, |o|);
  }

  /**
   * As written, a one-line timeline object followed by a line break passes the
   * fast-path test, because `$` also matches before a final line break; that line
   * break is then escaped into text after the object, and no timeline results.
   */
  lemma FinalNewlineAsWritten(v: string)
    requires Json.Encodable(v) && PyStr.NoNewline(v)
    ensures FastPathAsWritten(SingleLineReply(v) + "\n")
    ensures ExtractTimelineAsWritten(SingleLineReply(v) + "\n").None?
  {
    var o := SingleLineReply(v);
    var t := o + "\n";
    assert t[..|t| - 1] == o;
    assert '\n' !in o;
    PyStr.EscapeNewlinesAppend(o, "\n");
    PyStr.EscapeNewlinesIdentity(o);
    assert PyStr.EscapeNewlines("\n") == "\\n";
    EscapedTrailerRejected(o + "\\n", "timeline", v);
    SingleLineReplyShape(v);
  }

  /** With the corrected test the same reply is sliced, and its timeline is recovered. */
  lemma FinalNewlineCorrected(v: string)
    requires Json.Encodable(v) && PyStr.NoNewline(v)
    ensures !FastPath(SingleLineReply(v) + "\n")
    ensures ExtractTimeline(SingleLineReply(v) + "\n") == Some(v)
  {
    var t := SingleLineReply(v) + "\n";
    assert t[|t| - 1] == '\n';
    FinalNewlineRecovered(v, t);
  }

  lemma FinalNewlineRecovered(v: string, t: string)
    requires Json.Encodable(v) && t == OneMemberReply("timeline", v) + "\n"
    ensures ExtractTimeline(t) == Some(v)
  {
    var pairs := [("timeline", v)];
    OneMemberRaw("timeline", v);
    assert Json.AllEncodable(pairs);
    assert t == "" + RawObjectText(pairs) + "\n";
    TimelineRecoveredCorrected("", pairs, "\n");
    assert Json.LastValue(pairs, "timeline") == Some(v);
  }

  // ----- What the summary path recovers -----

  /**
   * A reply holding one object between prose without braces yields, for each of
   * the five keys, the value of its last member of that name, and `None` where
   * there is none; other keys are ignored.
   */
  lemma SummaryRecovered(p: string, pairs: seq<(string, string)>, q: string)
    requires '{' !in p && '}' !in q && Json.AllEncodable(pairs)
    ensures var r := ExtractSummary(p + Json.ObjectText(pairs) + q);
      r.summary == Json.LastValue(pairs, "summary") &&
      r.dateStarted == Json.LastValue(pairs, "date_started") &&
      r.dateEnded == Json.LastValue(pairs, "date_ended") &&
      r.corpFam == Json.LastValue(pairs, "corp_fam") &&
      r.category == Json.LastValue(pairs, "category")
  {
    var o := Json.ObjectText(pairs);
    SliceBracesDropsProse(p, o, q);
    Json.ParseObjectText(pairs);
    Json.CollectGet(map[], pairs, "summary");
    Json.CollectGet(map[], pairs, "date_started");
    Json.CollectGet(map[], pairs, "date_ended");
    Json.CollectGet(map[], pairs, "corp_fam");
    Json.CollectGet(map[], pairs, "category");
  }

  /** A string literal whose raw text holds a line break before its closing quote does not parse. */
  lemma RawBreakRejected(t: string, key: string, v: string)
    requires Json.Encodable(key) && PyStr.NoNewline(key) && Json.Encodable(v) && !PyStr.NoNewline(v)
    requires t == "{\"" + key + "\": \"" + v + "\"}"
    ensures Json.Parse(t).None?
  {
    PyStr.EscapeNewlinesIdentity(key);
    var j := |key| + 3;
    assert t[1..j] == Json.Quote(key);
    Json.ParseQuoted(t, 1, key);
    var n := PyStr.Find(v, '\n');
    assert forall k :: 0 <= k < n ==> v[k] == v[..n][k];
    assert t[j + 3..j + 3 + |v|] == v;
    Json.ParseCharsRejectsControl(t, j + 3, j + 3 + n);
    Json.ParseRejectsBadString(t, key, j);
  }

  /**
   * The summary path escapes nothing: a reply whose value holds a raw line break
   * yields no fields at all, where the timeline path would have recovered it.
   */
  lemma SummaryRawBreakRejected(p: string, key: string, v: string, q: string)
    requires '{' !in p && '}' !in q
    requires Json.Encodable(key) && PyStr.NoNewline(key) && Json.Encodable(v) && !PyStr.NoNewline(v)
    ensures ExtractSummary(p + OneMemberReply(key, v) + q) == NoFields
  {
    var o := OneMemberReply(key, v);
    SliceBracesDropsProse(p, o, q);
    RawBreakRejected(o, key, v);
  }

  /**
   * A reply with no object at all, such as a refusal in prose, yields no fields,
   * so the summary pass skips the entity.
   */
  lemma ProseSummaryReply(t: string)
    requires '{' !in t
    ensures ExtractSummary(t) == NoFields
  {
    assert !HasBraceSpan(t);
    var i := Json.SkipWs(t, 0);
    assert i < |t| ==> t[i] != '{';
  }
}
