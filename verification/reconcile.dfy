/**
 * The per-entity decisions of backend/populate_blanks.py: which entities a pass
 * consults the model for, which fields the recovered values overwrite, fill or
 * leave alone, and when an exception ends the run. A step takes an entity's
 * stored fields and what the content function returned for it (nothing when it
 * raised) and gives the new fields, or `Abort`.
 */
module Reconcile {
  import opened Wrappers
  import opened PyStr
  import Json
  import RE = ResponseExtraction
  import SH = StageHistory

  /** The stored fields of one entity row that the passes read or write. */
  datatype EntityRecord = EntityRecord(
    name: string,
    status: string,
    summary: Option<string>,
    dateStarted: Option<string>,
    dateEnded: Option<string>,
    corpFam: Option<string>,
    category: Option<string>,
    timeline: Option<string>,
    stageHistory: seq<SH.Entry>)

  /**
   * What the model call does: return text, raise an HTTP status error, or raise
   * anything else.
   */
  datatype Reply = Text(s: string) | HttpError(status: int) | OtherError

  /** One entity's outcome: its fields afterwards, or an exception that ends the run. */
  datatype Step = Next(rec: EntityRecord) | Abort

  /** No pass writes the name, the status or the stage history. */
  predicate SameRow(a: EntityRecord, b: EntityRecord) {
    a.name == b.name && a.status == b.status && a.stageHistory == b.stageHistory
  }

  // ----- What the content functions return -----

  /**
   * `create_summary_content` after the model call: the five values recovered
   * from the reply text; nothing when the call raised, since `content` is then
   * unbound and reading it raises.
   */
  function SummaryReply(reply: Reply): (r: Option<RE.SummaryFields>)
    ensures r.Some? <==> reply.Text?
  {
    if reply.Text? then Some(RE.ExtractSummary(reply.s)) else None
  }

  /**
   * `create_timeline_content` after the model call: the timeline the code as
   * written recovers from the reply text, or from the placeholder after an HTTP
   * status error; nothing after any other error, which leaves `content` unbound.
   */
  function TimelineReply(reply: Reply): (r: Option<Option<string>>)
    ensures r.Some? <==> !reply.OtherError?
    ensures reply.HttpError? ==> r == Some(None)
    ensures r.Some? && r.value.Some? ==> reply.Text? && Json.Parse(RE.SanitizeTimelineAsWritten(reply.s)).Some?
  {
    match reply
    case Text(s) => Some(RE.ExtractTimelineAsWritten(s))
    case HttpError(_) =>
      RE.PlaceholderRejected();
      Some(RE.ExtractTimelineAsWritten(RE.Placeholder))
    case OtherError => None
  }

  // ----- The summary pass -----

  /** The summary pass asks the model only for enabled entities without a truthy summary. */
  predicate SummaryConsulted(rec: EntityRecord) {
    rec.status != "disabled" && !Truthy(rec.summary)
  }

  /**
   * `parse_for_blank_summary` for one entity, given what `create_summary_content`
   * returned (`None` when it raised): skip the entity when disabled or when its
   * summary is truthy; otherwise, unless the returned summary is falsy,
   * overwrite summary and both dates and fill `corp_fam` and `category` only
   * where they are falsy.
   */
  function SummaryStep(rec: EntityRecord, got: Option<RE.SummaryFields>): (r: Step)
    ensures r.Abort? <==> SummaryConsulted(rec) && got.None?
  {
    if !SummaryConsulted(rec) then Next(rec)
    else
      match got
      case None => Abort
      case Some(f) =>
        if !Truthy(f.summary) then Next(rec)
        else
          Next(rec.(summary := f.summary, dateStarted := f.dateStarted, dateEnded := f.dateEnded,
                    corpFam := if Truthy(rec.corpFam) then rec.corpFam else f.corpFam,
                    category := if Truthy(rec.category) then rec.category else f.category))
  }

  /**
   * What the summary pass never does: touch name, status, history or timeline,
   * change an entity it does not consult, write a falsy summary, or replace a
   * truthy `corp_fam` or `category`.
   */
  lemma SummaryStepKeeps(rec: EntityRecord, got: Option<RE.SummaryFields>)
    requires SummaryStep(rec, got).Next?
    ensures var r := SummaryStep(rec, got).rec;
      SameRow(r, rec) && r.timeline == rec.timeline &&
      (!SummaryConsulted(rec) ==> r == rec) &&
      (r != rec ==> Truthy(r.summary)) &&
      (Truthy(rec.corpFam) ==> r.corpFam == rec.corpFam) &&
      (Truthy(rec.category) ==> r.category == rec.category)
  {
  }

  /**
   * The summary pass's policy for a consulted entity, whatever comes back: a
   * falsy summary leaves the row as it was; a truthy one overwrites summary and
   * both dates and fills `corp_fam` and `category` only where they are falsy.
   */
  lemma SummaryStepFields(rec: EntityRecord, f: RE.SummaryFields)
    requires SummaryConsulted(rec)
    ensures !Truthy(f.summary) ==> SummaryStep(rec, Some(f)) == Next(rec)
    ensures var r := SummaryStep(rec, Some(f));
      Truthy(f.summary) ==>
        r.Next? && SameRow(r.rec, rec) && r.rec.timeline == rec.timeline &&
        r.rec.summary == f.summary && r.rec.dateStarted == f.dateStarted && r.rec.dateEnded == f.dateEnded &&
        r.rec.corpFam == (if Truthy(rec.corpFam) then rec.corpFam else f.corpFam) &&
        r.rec.category == (if Truthy(rec.category) then rec.category else f.category)
  {
  }

  /** A filled entity is not consulted again: a second summary pass leaves it as it is, whatever comes back. */
  lemma SummaryStepSettles(rec: EntityRecord, first: Option<RE.SummaryFields>, second: Option<RE.SummaryFields>)
    requires SummaryStep(rec, first).Next?
    requires SummaryStep(rec, first).rec != rec
    ensures SummaryStep(SummaryStep(rec, first).rec, second) == Next(SummaryStep(rec, first).rec)
  {
  }

  /**
   * End to end: a reply holding a one-line object between prose without braces,
   * with a truthy `summary`, overwrites summary and dates with that object's
   * values and fills `corp_fam` and `category` from it only where they were falsy.
   */
  lemma SummaryFromReply(rec: EntityRecord, p: string, pairs: seq<(string, string)>, q: string)
    requires SummaryConsulted(rec)
    requires '{' !in p && '}' !in q && Json.AllEncodable(pairs)
    requires Truthy(Json.LastValue(pairs, "summary"))
    ensures var r := SummaryStep(rec, SummaryReply(Text(p + Json.ObjectText(pairs) + q)));
      r.Next? &&
      r.rec.summary == Json.LastValue(pairs, "summary") &&
      r.rec.dateStarted == Json.LastValue(pairs, "date_started") &&
      r.rec.dateEnded == Json.LastValue(pairs, "date_ended") &&
      r.rec.corpFam == (if Truthy(rec.corpFam) then rec.corpFam else Json.LastValue(pairs, "corp_fam")) &&
      r.rec.category == (if Truthy(rec.category) then rec.category else Json.LastValue(pairs, "category"))
  {
    RE.SummaryRecovered(p, pairs, q);
  }

  /** A reply that does not parse changes nothing: the recovered summary is `None`. */
  lemma SummaryUnparsedKeepsRow(rec: EntityRecord, s: string)
    requires Json.Parse(RE.SliceBraces(s)).None?
    ensures SummaryStep(rec, SummaryReply(Text(s))) == Next(rec)
  {
  }

  // ----- The timeline pass -----

  /**
   * The timeline pass asks the model only for enabled entities without a truthy
   * timeline whose summary is not `None`; an empty summary does not exclude one.
   */
  predicate TimelineConsulted(rec: EntityRecord) {
    rec.status != "disabled" && !Truthy(rec.timeline) && rec.summary != None
  }

  /**
   * `create_timeline_content` and the assignment after it: the history is
   * rendered first (raising on a bad entry), then the model's outcome is taken
   * (`None` when the call raised), and a truthy timeline is written.
   */
  function TimelineContent(rec: EntityRecord, news: map<string, SH.NewsItem>, got: Option<Option<string>>): (r: Step)
    ensures r.Abort? <==> !SH.Renderable(rec.stageHistory, news) || got.None?
  {
    if !SH.Renderable(rec.stageHistory, news) then Abort
    else
      match got
      case None => Abort
      case Some(t) => if Truthy(t) then Next(rec.(timeline := t)) else Next(rec)
  }

  /** `parse_for_blank_timeline` for one entity: the content step for the entities it consults, nothing for the rest. */
  function TimelineStep(rec: EntityRecord, news: map<string, SH.NewsItem>, got: Option<Option<string>>): (r: Step)
    ensures r.Abort? <==> TimelineConsulted(rec) && (!SH.Renderable(rec.stageHistory, news) || got.None?)
  {
    if !TimelineConsulted(rec) then Next(rec) else TimelineContent(rec, news, got)
  }

  /** The content step writes the timeline and nothing else, and only a truthy one. */
  lemma TimelineContentKeeps(rec: EntityRecord, news: map<string, SH.NewsItem>, got: Option<Option<string>>)
    requires TimelineContent(rec, news, got).Next?
    ensures var r := TimelineContent(rec, news, got).rec;
      r == rec.(timeline := r.timeline) && (r.timeline != rec.timeline ==> Truthy(r.timeline))
  {
  }

  /**
   * The timeline pass writes the timeline and nothing else, only a truthy one and
   * only for an entity it consults; the others are left as they are.
   */
  lemma TimelineStepKeeps(rec: EntityRecord, news: map<string, SH.NewsItem>, got: Option<Option<string>>)
    requires TimelineStep(rec, news, got).Next?
    ensures var r := TimelineStep(rec, news, got).rec;
      r == rec.(timeline := r.timeline) &&
      (r.timeline != rec.timeline ==> TimelineConsulted(rec) && Truthy(r.timeline)) &&
      (!TimelineConsulted(rec) ==> r == rec)
  {
    if TimelineConsulted(rec) {
      TimelineContentKeeps(rec, news, got);
    }
  }

  /** After an HTTP status error the placeholder yields nothing, so the entity is left as it was (or the history raised first). */
  lemma TimelineHttpErrorKeepsRow(rec: EntityRecord, news: map<string, SH.NewsItem>, status: int)
    ensures var r := TimelineStep(rec, news, TimelineReply(HttpError(status))); r == Next(rec) || r.Abort?
  {
  }

  /** An empty-string summary does not stop the timeline pass, while a `None` summary does. */
  lemma TimelineSummaryTest(rec: EntityRecord)
    requires rec.status != "disabled" && !Truthy(rec.timeline)
    ensures rec.summary == Some("") ==> TimelineConsulted(rec)
    ensures rec.summary == None ==> !TimelineConsulted(rec)
  {
  }

  /** A written timeline is truthy, so the next timeline pass skips the entity whatever comes back. */
  lemma TimelineStepSettles(rec: EntityRecord, news: map<string, SH.NewsItem>, first: Option<Option<string>>,
                            second: Option<Option<string>>)
    requires TimelineStep(rec, news, first).Next?
    requires TimelineStep(rec, news, first).rec != rec
    ensures TimelineStep(TimelineStep(rec, news, first).rec, news, second) == Next(TimelineStep(rec, news, first).rec)
  {
  }

  /**
   * End to end: a reply holding one raw object between prose without braces
   * writes its truthy `timeline` value, unless the reply is that object followed
   * by exactly one line break (see `TimelineFinalNewlineKeepsRow`).
   */
  lemma TimelineFromReply(rec: EntityRecord, news: map<string, SH.NewsItem>, p: string, pairs: seq<(string, string)>, q: string)
    requires TimelineConsulted(rec) && SH.Renderable(rec.stageHistory, news)
    requires '{' !in p && '}' !in q && Json.AllEncodable(pairs)
    requires p != "" || q != "\n"
    requires Truthy(Json.LastValue(pairs, "timeline"))
    ensures TimelineStep(rec, news, TimelineReply(Text(p + RE.RawObjectText(pairs) + q))) ==
            Next(rec.(timeline := Json.LastValue(pairs, "timeline")))
  {
    RE.TimelineRecovered(p, pairs, q);
  }

  /**
   * As written, a reply that is a one-line timeline object followed by one line
   * break takes the fast path, fails to parse, and leaves the row as it was.
   */
  lemma TimelineFinalNewlineKeepsRow(rec: EntityRecord, news: map<string, SH.NewsItem>, v: string)
    requires SH.Renderable(rec.stageHistory, news)
    requires Json.Encodable(v) && NoNewline(v)
    ensures TimelineStep(rec, news, TimelineReply(Text(RE.SingleLineReply(v) + "\n"))) == Next(rec)
  {
    RE.FinalNewlineAsWritten(v);
  }

  // ----- A whole batch pass -----

  /** The rows after a batch pass, and the index of the entity whose step raised, if any. */
  datatype PassResult = PassResult(recs: seq<EntityRecord>, abortedAt: Option<nat>)

  /**
   * A batch pass from index `i` on: each row in query order takes `step` with
   * what its content function returned; the first step that raises ends the
   * pass, the rows before it keeping what their steps wrote (each step commits
   * before the next).
   */
  function PassFrom<R>(step: (EntityRecord, R) -> Step, recs: seq<EntityRecord>, got: seq<R>, i: nat): (r: PassResult)
    requires |got| == |recs| && i <= |recs|
    ensures |r.recs| == |recs|
    decreases |recs| - i
  {
    if i == |recs| then PassResult(recs, None)
    else
      match step(recs[i], got[i])
      case Abort => PassResult(recs, Some(i))
      case Next(rec) => PassFrom(step, recs[i := rec], got, i + 1)
  }

  function Pass<R>(step: (EntityRecord, R) -> Step, recs: seq<EntityRecord>, got: seq<R>): PassResult
    requires |got| == |recs|
  {
    PassFrom(step, recs, got, 0)
  }

  /** One row further: a step that does not raise commits its row and the pass goes on. */
  lemma PassFromNext<R>(step: (EntityRecord, R) -> Step, recs: seq<EntityRecord>, got: seq<R>, i: nat, rec: EntityRecord)
    requires |got| == |recs| && i < |recs| && step(recs[i], got[i]) == Next(rec)
    ensures PassFrom(step, recs, got, i) == PassFrom(step, recs[i := rec], got, i + 1)
  {
  }

  /** `parse_for_blank_timeline`'s step, with the stored news items fixed. */
  function TimelinePassStep(news: map<string, SH.NewsItem>): (EntityRecord, Option<Option<string>>) -> Step {
    (rec, got) => TimelineStep(rec, news, got)
  }

  /**
   * What a pass from `i` does to each row: the rows before `i` and the rows from
   * the raising one on are untouched, every row in between took its step, which
   * did not raise, and the raising row's step is the one that raised.
   */
  lemma {:induction false} PassFromOutcome<R>(step: (EntityRecord, R) -> Step, recs: seq<EntityRecord>, got: seq<R>, i: nat)
    requires |got| == |recs| && i <= |recs|
    ensures var r := PassFrom(step, recs, got, i);
      (r.abortedAt.Some? ==> i <= r.abortedAt.value < |recs| && step(recs[r.abortedAt.value], got[r.abortedAt.value]).Abort?) &&
      (forall j :: i <= j < |recs| && (r.abortedAt.None? || j < r.abortedAt.value) ==> step(recs[j], got[j]).Next?) &&
      (forall j :: 0 <= j < |recs| ==>
        r.recs[j] == if j < i || (r.abortedAt.Some? && r.abortedAt.value <= j) then recs[j] else step(recs[j], got[j]).rec)
    decreases |recs| - i
  {
    if i < |recs| && step(recs[i], got[i]).Next? {
      PassFromOutcome(step, recs[i := step(recs[i], got[i]).rec], got, i + 1);
    }
  }

  /**
   * A whole pass: the entities before the raising one (all of them when none
   * raised) hold what their steps wrote, the others are as they were.
   */
  lemma PassOutcome<R>(step: (EntityRecord, R) -> Step, recs: seq<EntityRecord>, got: seq<R>)
    requires |got| == |recs|
    ensures var r := Pass(step, recs, got);
      (r.abortedAt.Some? ==> r.abortedAt.value < |recs| && step(recs[r.abortedAt.value], got[r.abortedAt.value]).Abort?) &&
      (forall j :: 0 <= j < |recs| && (r.abortedAt.None? || j < r.abortedAt.value) ==>
        step(recs[j], got[j]).Next? && r.recs[j] == step(recs[j], got[j]).rec) &&
      (forall j :: 0 <= j < |recs| && r.abortedAt.Some? && r.abortedAt.value <= j ==> r.recs[j] == recs[j])
  {
    PassFromOutcome(step, recs, got, 0);
  }

  /** The summary pass never replaces a truthy `corp_fam` or `category`, whatever comes back. */
  lemma SummaryPassKeepsCurated(recs: seq<EntityRecord>, got: seq<Option<RE.SummaryFields>>, j: nat)
    requires |got| == |recs| && j < |recs|
    ensures var r := Pass(SummaryStep, recs, got).recs[j];
      SameRow(r, recs[j]) && r.timeline == recs[j].timeline &&
      (Truthy(recs[j].corpFam) ==> r.corpFam == recs[j].corpFam) &&
      (Truthy(recs[j].category) ==> r.category == recs[j].category)
  {
    PassOutcome(SummaryStep, recs, got);
    var r := Pass(SummaryStep, recs, got);
    if r.abortedAt.None? || j < r.abortedAt.value {
      SummaryStepKeeps(recs[j], got[j]);
    }
  }

  /** The timeline pass writes only timelines, and only truthy ones, of the entities it consults. */
  lemma TimelinePassWritesOnlyTimelines(recs: seq<EntityRecord>, got: seq<Option<Option<string>>>,
                                        news: map<string, SH.NewsItem>, j: nat)
    requires |got| == |recs| && j < |recs|
    ensures var r := Pass(TimelinePassStep(news), recs, got).recs[j];
      r == recs[j].(timeline := r.timeline) &&
      (r.timeline != recs[j].timeline ==> TimelineConsulted(recs[j]) && Truthy(r.timeline))
  {
    PassOutcome(TimelinePassStep(news), recs, got);
    var r := Pass(TimelinePassStep(news), recs, got);
    if r.abortedAt.None? || j < r.abortedAt.value {
      TimelineStepKeeps(recs[j], news, got[j]);
    }
  }

  // ----- The single-entity path -----

  /** `Entity.query.filter_by(name=...).first()`: the first row with that name, if any. */
  function FirstNamed(recs: seq<EntityRecord>, name: string): (r: Option<nat>)
    ensures r.Some? ==> r.value < |recs| && recs[r.value].name == name
    ensures r.Some? ==> forall j :: 0 <= j < r.value ==> recs[j].name != name
    ensures r.None? ==> forall j :: 0 <= j < |recs| ==> recs[j].name != name
  {
    if recs == [] then None
    else if recs[0].name == name then Some(0)
    else
      var r := FirstNamed(recs[1..], name);
      if r.None? then None else Some(r.value + 1)
  }

  /** The entity afterwards, and whether an exception ended the call. */
  datatype SingleResult = SingleResult(rec: EntityRecord, aborted: bool)

  /**
   * The summary half of `create_timeline_for_entity`, run only when the summary is
   * `None`: `Abort` when `create_summary_content` raised; `None` when the returned
   * summary is falsy (the call returns before any timeline attempt); otherwise
   * summary and start date overwritten and end date, `corp_fam` and `category`
   * overwritten only by a truthy new value.
   */
  function SingleSummary(rec: EntityRecord, got: Option<RE.SummaryFields>): (r: Option<Step>)
    requires rec.summary == None
    ensures r.None? <==> got.Some? && !Truthy(got.value.summary)
    ensures r == Some(Abort) <==> got.None?
    ensures r.Some? && r.value.Next? ==>
      SameRow(r.value.rec, rec) && r.value.rec.timeline == rec.timeline && Truthy(r.value.rec.summary)
  {
    match got
    case None => Some(Abort)
    case Some(f) =>
      if !Truthy(f.summary) then None
      else
        Some(Next(rec.(summary := f.summary, dateStarted := f.dateStarted,
                       dateEnded := if Truthy(f.dateEnded) then f.dateEnded else rec.dateEnded,
                       corpFam := if Truthy(f.corpFam) then f.corpFam else rec.corpFam,
                       category := if Truthy(f.category) then f.category else rec.category)))
  }

  /**
   * `create_timeline_for_entity` for the entity found: the summary half when its
   * summary is `None`, then the timeline content step, without the batch pass's
   * status and existing-timeline tests.
   */
  function SingleEntity(rec: EntityRecord, summaryGot: Option<RE.SummaryFields>, timelineGot: Option<Option<string>>,
                        news: map<string, SH.NewsItem>): (r: SingleResult)
    ensures r.aborted <==>
      (rec.summary == None && summaryGot.None?) ||
      ((rec.summary != None || (summaryGot.Some? && Truthy(summaryGot.value.summary))) &&
       (timelineGot.None? || !SH.Renderable(rec.stageHistory, news)))
  {
    var first := if rec.summary == None then SingleSummary(rec, summaryGot) else Some(Next(rec));
    match first
    case None => SingleResult(rec, false)
    case Some(Abort) => SingleResult(rec, true)
    case Some(Next(rec1)) =>
      match TimelineContent(rec1, news, timelineGot)
      case Abort => SingleResult(rec1, true)
      case Next(rec2) => SingleResult(rec2, false)
  }

  /**
   * The single-entity path never touches name, status or history; with a summary
   * already present it writes only the timeline; and a timeline it writes is
   * truthy and comes with a normal return.
   */
  lemma SingleEntityKeeps(rec: EntityRecord, summaryGot: Option<RE.SummaryFields>, timelineGot: Option<Option<string>>,
                          news: map<string, SH.NewsItem>)
    ensures var r := SingleEntity(rec, summaryGot, timelineGot, news);
      SameRow(r.rec, rec) &&
      (rec.summary != None ==> r.rec == rec.(timeline := r.rec.timeline)) &&
      (r.rec.timeline != rec.timeline ==> !r.aborted && Truthy(r.rec.timeline))
  {
    var first := if rec.summary == None then SingleSummary(rec, summaryGot) else Some(Next(rec));
    if first.Some? && first.value.Next? && TimelineContent(first.value.rec, news, timelineGot).Next? {
      TimelineContentKeeps(first.value.rec, news, timelineGot);
    }
  }

  /** When the regenerated summary is falsy the call stops before the timeline: nothing changes, whatever the timeline outcome. */
  lemma SingleStopsWithoutSummary(rec: EntityRecord, f: RE.SummaryFields, timelineGot: Option<Option<string>>,
                                  news: map<string, SH.NewsItem>)
    requires rec.summary == None && !Truthy(f.summary)
    ensures SingleEntity(rec, Some(f), timelineGot, news) == SingleResult(rec, false)
  {
  }

  /**
   * The single-entity path overwrites a curated `corp_fam` with any truthy new
   * value, where the summary pass keeps it.
   */
  lemma CorpFamPoliciesDiffer(rec: EntityRecord, f: RE.SummaryFields, timelineGot: Option<Option<string>>,
                              news: map<string, SH.NewsItem>)
    requires rec.summary == None && rec.status != "disabled"
    requires Truthy(f.summary) && Truthy(f.corpFam) && Truthy(rec.corpFam)
    ensures SummaryStep(rec, Some(f)).rec.corpFam == rec.corpFam
    ensures SingleEntity(rec, Some(f), timelineGot, news).rec.corpFam == f.corpFam
  {
  }

  /**
   * The regenerated summary and start date are taken as returned; end date,
   * `corp_fam` and `category` take the new value only when it is truthy and keep
   * the stored one otherwise.
   */
  lemma SingleSummaryFields(rec: EntityRecord, f: RE.SummaryFields)
    requires rec.summary == None && Truthy(f.summary)
    ensures var r := SingleSummary(rec, Some(f));
      r.Some? && r.value.Next? &&
      r.value.rec.summary == f.summary && r.value.rec.dateStarted == f.dateStarted &&
      (Truthy(f.dateEnded) ==> r.value.rec.dateEnded == f.dateEnded) &&
      (!Truthy(f.dateEnded) ==> r.value.rec.dateEnded == rec.dateEnded) &&
      (Truthy(f.corpFam) ==> r.value.rec.corpFam == f.corpFam) &&
      (!Truthy(f.corpFam) ==> r.value.rec.corpFam == rec.corpFam) &&
      (Truthy(f.category) ==> r.value.rec.category == f.category) &&
      (!Truthy(f.category) ==> r.value.rec.category == rec.category)
  {
  }

  /**
   * A missing end date clears a stored one in the summary pass but leaves it in
   * place on the single-entity path.
   */
  lemma DateEndedPoliciesDiffer(rec: EntityRecord, f: RE.SummaryFields, timelineGot: Option<Option<string>>,
                                news: map<string, SH.NewsItem>)
    requires rec.summary == None && rec.status != "disabled"
    requires Truthy(f.summary) && f.dateEnded == None && Truthy(rec.dateEnded)
    ensures SummaryStep(rec, Some(f)).rec.dateEnded == None
    ensures SingleEntity(rec, Some(f), timelineGot, news).rec.dateEnded == rec.dateEnded
  {
    SingleSummaryFields(rec, f);
    var rec1 := SingleSummary(rec, Some(f)).value.rec;
    if TimelineContent(rec1, news, timelineGot).Next? {
      TimelineContentKeeps(rec1, news, timelineGot);
    }
  }

  /** The single-entity path writes a truthy recovered timeline even over an existing one, and even for a disabled entity. */
  lemma SingleOverwritesTimeline(rec: EntityRecord, summaryGot: Option<RE.SummaryFields>, t: Option<string>,
                                 news: map<string, SH.NewsItem>)
    requires rec.summary != None && SH.Renderable(rec.stageHistory, news)
    requires Truthy(t)
    ensures SingleEntity(rec, summaryGot, Some(t), news) == SingleResult(rec.(timeline := t), false)
  {
  }
}
