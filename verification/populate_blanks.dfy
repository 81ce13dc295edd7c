/**
 * The passes of backend/populate_blanks.py over the stored entities:
 * `parse_for_blank_summary`, `parse_for_blank_timeline` and
 * `create_timeline_for_entity`. An `Entity` is a row whose fields the passes
 * assign in place; the model's reply for each entity is an input.
 */
module PopulateBlanks {
  import opened Wrappers
  import opened PyStr
  import RE = ResponseExtraction
  import SH = StageHistory
  import opened Reconcile

  /** A stored entity row. */
  class Entity {
    var name: string
    var status: string
    var summary: Option<string>
    var dateStarted: Option<string>
    var dateEnded: Option<string>
    var corpFam: Option<string>
    var category: Option<string>
    var timeline: Option<string>
    var stageHistory: seq<SH.Entry>

    /** The row's fields as a value. */
    function Record(): EntityRecord
      reads this
    {
      EntityRecord(name, status, summary, dateStarted, dateEnded, corpFam, category, timeline, stageHistory)
    }

    /**
     * The body of the `parse_for_blank_summary` loop for this entity, given what
     * `create_summary_content` returns for it (`None` when it raises); `raised`
     * when the loop ends here with an exception.
     */
    method FillSummary(got: Option<RE.SummaryFields>) returns (raised: bool)
      modifies this
      ensures raised <==> SummaryStep(old(Record()), got).Abort?
      ensures Record() == Outcome(old(Record()), SummaryStep(old(Record()), got))
    {
      if status == "disabled" || Truthy(summary) {
        return false;
      }
      if got.None? {
        return true;
      }
      var f := got.value;
      if !Truthy(f.summary) {
        return false;
      }
      summary := f.summary;
      dateStarted := f.dateStarted;
      dateEnded := f.dateEnded;
      if !Truthy(corpFam) {
        corpFam := f.corpFam;
      }
      if !Truthy(category) {
        category := f.category;
      }
      return false;
    }

    /**
     * `create_timeline_content` for this entity: render the history (which
     * raises on a bad entry), then take the model's outcome `got`, an input
     * (`None` when the call raised, otherwise the timeline `Reconcile.TimelineReply`
     * recovers from the reply). `None` when it raises, otherwise `got` itself.
     */
    method CreateTimelineContent(news: map<string, SH.NewsItem>, got: Option<Option<string>>) returns (t: Option<Option<string>>)
      ensures t.None? <==> !SH.Renderable(stageHistory, news) || got.None?
      ensures t.Some? ==> t == got
    {
      var newsItems := SH.RenderHistory(stageHistory, news);
      if newsItems.None? {
        return None;
      }
      t := got;
    }

    /** The body of the `parse_for_blank_timeline` loop for this entity. */
    method FillTimeline(news: map<string, SH.NewsItem>, got: Option<Option<string>>) returns (raised: bool)
      modifies this
      ensures raised <==> TimelineStep(old(Record()), news, got).Abort?
      ensures Record() == Outcome(old(Record()), TimelineStep(old(Record()), news, got))
    {
      if status == "disabled" || Truthy(timeline) || summary == None {
        return false;
      }
      raised := WriteTimeline(news, got);
    }

    /**
     * `create_timeline_content` followed by the assignment after it: a truthy
     * recovered timeline is written.
     */
    method WriteTimeline(news: map<string, SH.NewsItem>, got: Option<Option<string>>) returns (raised: bool)
      modifies this
      ensures raised <==> TimelineContent(old(Record()), news, got).Abort?
      ensures Record() == Outcome(old(Record()), TimelineContent(old(Record()), news, got))
    {
      var t := CreateTimelineContent(news, got);
      if t.None? {
        return true;
      }
      if Truthy(t.value) {
        timeline := t.value;
      }
      return false;
    }

    /**
     * The summary half of `create_timeline_for_entity`: `stop` is `Some(raised)`
     * when the call ends here, `None` when the timeline half follows.
     */
    method RegenerateSummary(got: Option<RE.SummaryFields>) returns (stop: Option<bool>)
      requires summary == None
      modifies this
      ensures var s := SingleSummary(old(Record()), got);
        (s.None? ==> stop == Some(false) && Record() == old(Record())) &&
        (s == Some(Abort) ==> stop == Some(true) && Record() == old(Record())) &&
        (s.Some? && s.value.Next? ==> stop.None? && Record() == s.value.rec)
    {
      if got.None? {
        return Some(true);
      }
      var f := got.value;
      if !Truthy(f.summary) {
        return Some(false);
      }
      summary := f.summary;
      dateStarted := f.dateStarted;
      if Truthy(f.dateEnded) {
        dateEnded := f.dateEnded;
      }
      if Truthy(f.corpFam) {
        corpFam := f.corpFam;
      }
      if Truthy(f.category) {
        category := f.category;
      }
      return None;
    }

    /** `create_timeline_for_entity` once the entity is found. */
    method CreateTimeline(summaryGot: Option<RE.SummaryFields>, timelineGot: Option<Option<string>>,
                          news: map<string, SH.NewsItem>) returns (raised: bool)
      modifies this
      ensures var r := SingleEntity(old(Record()), summaryGot, timelineGot, news);
        Record() == r.rec && raised == r.aborted
    {
      if summary == None {
        var stop := RegenerateSummary(summaryGot);
        if stop.Some? {
          return stop.value;
        }
      }
      raised := WriteTimeline(news, timelineGot);
    }
  }

  /** The fields of every row, in query order. */
  function Snapshot(entities: seq<Entity>): (r: seq<EntityRecord>)
    reads entities
    ensures |r| == |entities|
    ensures forall i :: 0 <= i < |entities| ==> r[i] == entities[i].Record()
  {
    if entities == [] then [] else [entities[0].Record()] + Snapshot(entities[1..])
  }

  /** The fields after a step: the step's result, or the old fields when it raised. */
  function Outcome(rec: EntityRecord, s: Step): EntityRecord {
    if s.Next? then s.rec else rec
  }

  /** Rows that differ at most at index `i`, where the new one holds `rec`. */
  lemma SnapshotUpdated(before: seq<EntityRecord>, after: seq<EntityRecord>, i: nat, rec: EntityRecord)
    requires |after| == |before| && i < |before| && after[i] == rec
    requires forall j :: 0 <= j < |before| && j != i ==> after[j] == before[j]
    ensures after == before[i := rec]
  {
  }

  /** Distinct rows, as `Entity.query.all()` returns them. */
  predicate Distinct(entities: seq<Entity>) {
    forall i, j :: 0 <= i < j < |entities| ==> entities[i] != entities[j]
  }

  /**
   * `parse_for_blank_summary`, given what `create_summary_content` returns for
   * each entity in query order: the rows afterwards and the index of the entity
   * where an exception ended the loop are those of the summary pass over the
   * rows as they were.
   */
  method ParseForBlankSummary(entities: seq<Entity>, got: seq<Option<RE.SummaryFields>>) returns (abortedAt: Option<nat>)
    requires |got| == |entities| && Distinct(entities)
    modifies entities
    ensures var r := Pass(SummaryStep, old(Snapshot(entities)), got);
      Snapshot(entities) == r.recs && abortedAt == r.abortedAt
  {
    ghost var initial := Snapshot(entities);
    var i := 0;
    while i < |entities|
      invariant 0 <= i <= |entities|
      invariant PassFrom(SummaryStep, Snapshot(entities), got, i) == Pass(SummaryStep, initial, got)
    {
      ghost var before := Snapshot(entities);
      ghost var s := SummaryStep(before[i], got[i]);
      assert SummaryStep(before[i], got[i]) == s;
      var raised := entities[i].FillSummary(got[i]);
      assert forall j :: 0 <= j < |entities| && j != i ==> entities[j] != entities[i];
      ghost var after := Snapshot(entities);
      assert forall j :: 0 <= j < |entities| && j != i ==> after[j] == before[j];
      if raised {
        SnapshotUpdated(before, after, i, before[i]);
        return Some(i);
      }
      SnapshotUpdated(before, after, i, s.rec);
      PassFromNext(SummaryStep, before, got, i, s.rec);
      i := i + 1;
    }
    return None;
  }

  /**
   * `parse_for_blank_timeline`, given the model's outcome for each entity it
   * would consult: the rows afterwards and the index of the entity where an
   * exception ended the loop are those of the timeline pass over the rows as
   * they were.
   */
  method ParseForBlankTimeline(entities: seq<Entity>, got: seq<Option<Option<string>>>, news: map<string, SH.NewsItem>)
    returns (abortedAt: Option<nat>)
    requires |got| == |entities| && Distinct(entities)
    modifies entities
    ensures var r := Pass(TimelinePassStep(news), old(Snapshot(entities)), got);
      Snapshot(entities) == r.recs && abortedAt == r.abortedAt
  {
    ghost var initial := Snapshot(entities);
    var i := 0;
    while i < |entities|
      invariant 0 <= i <= |entities|
      invariant PassFrom(TimelinePassStep(news), Snapshot(entities), got, i) == Pass(TimelinePassStep(news), initial, got)
    {
      ghost var before := Snapshot(entities);
      ghost var s := TimelineStep(before[i], news, got[i]);
      assert TimelinePassStep(news)(before[i], got[i]) == s;
      var raised := entities[i].FillTimeline(news, got[i]);
      assert forall j :: 0 <= j < |entities| && j != i ==> entities[j] != entities[i];
      ghost var after := Snapshot(entities);
      assert forall j :: 0 <= j < |entities| && j != i ==> after[j] == before[j];
      if raised {
        SnapshotUpdated(before, after, i, before[i]);
        return Some(i);
      }
      SnapshotUpdated(before, after, i, s.rec);
      PassFromNext(TimelinePassStep(news), before, got, i, s.rec);
      i := i + 1;
    }
    return None;
  }

  /**
   * `create_timeline_for_entity`: the first entity with the name takes the
   * single-entity step; when there is none, reading its summary raises.
   */
  method CreateTimelineForEntity(entities: seq<Entity>, entityName: string, summaryGot: Option<RE.SummaryFields>,
                                 timelineGot: Option<Option<string>>, news: map<string, SH.NewsItem>)
    returns (found: Option<nat>, aborted: bool)
    modifies entities
    ensures found == FirstNamed(old(Snapshot(entities)), entityName)
    ensures found.None? ==> aborted
    ensures found.Some? ==>
      var r := SingleEntity(old(entities[found.value].Record()), summaryGot, timelineGot, news);
      entities[found.value].Record() == r.rec && aborted == r.aborted
    ensures forall e :: e in entities && (found.None? || e != entities[found.value]) ==> e.Record() == old(e.Record())
  {
    found := FirstNamed(Snapshot(entities), entityName);
    if found.None? {
      return found, true;
    }
    aborted := entities[found.value].CreateTimeline(summaryGot, timelineGot, news);
  }
}
