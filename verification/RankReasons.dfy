/**
 * Page-wide choice of ranking reasons (internal/api/discovery_rank_reasons.go): a row may only cite a
 * number that no row below it beats by more than a small margin.  Numbers are exact reals.
 */
module RankReasons {
  import opened Common

  const EPSILON: real := 0.001
  const RISING_ENGAGEMENT_FLOOR: real := 1.0

  datatype Signal = Signal(code: string, metric: string, value: real, unit: string, offer: bool, comparable: bool,
                           bare: bool)

  datatype Evidence = Evidence(metric: string, value: real, unit: string)

  datatype Reason = Reason(code: string, evidence: Option<Evidence>)

  type Row = seq<Signal>

  // ---------------------------------------------------------------- choosing

  /** The first signal of a row with the given code. */
  function ByCode(row: Row, code: string): Option<Signal> {
    if row == [] then None
    else if row[0].code == code then Some(row[0])
    else ByCode(row[1..], code)
  }

  method SignalByCode(row: Row, code: string) returns (s: Option<Signal>)
    ensures s == ByCode(row, code)
  {
    var i := 0;
    while i < |row|
      invariant 0 <= i <= |row| && ByCode(row, code) == ByCode(row[i..], code)
    {
      if row[i].code == code {
        return Some(row[i]);
      }
      assert row[i..][1..] == row[i + 1..];
      i := i + 1;
    }
    return None;
  }

  /** No lower row beats `value` for this code by more than the margin. */
  ghost predicate Unbeaten(rows: seq<Row>, index: nat, code: string, value: real) {
    forall j :: index < j < |rows| && ByCode(rows[j], code).Some? && ByCode(rows[j], code).value.comparable ==>
      ByCode(rows[j], code).value.value <= value + EPSILON
  }

  method SignalMonotonic(rows: seq<Row>, index: nat, code: string, value: real) returns (ok: bool)
    ensures ok == Unbeaten(rows, index, code, value)
  {
    var j := index + 1;
    while j < |rows|
      invariant index < j
      invariant forall k :: index < k < j && k < |rows| &&
                            ByCode(rows[k], code).Some? && ByCode(rows[k], code).value.comparable ==>
                  ByCode(rows[k], code).value.value <= value + EPSILON
    {
      var later := SignalByCode(rows[j], code);
      if later.Some? && later.value.comparable && later.value.value > value + EPSILON {
        return false;
      }
      j := j + 1;
    }
    return true;
  }

  function ReasonFrom(s: Signal): Reason {
    Reason(s.code, if s.bare || s.metric == "" then None else Some(Evidence(s.metric, s.value, s.unit)))
  }

  /** A reason has its signal's code, and its figure unless the signal is bare or has no metric. */
  lemma EvidenceIff(s: Signal)
    ensures ReasonFrom(s).code == s.code && (ReasonFrom(s).evidence.Some? <==> !s.bare && s.metric != "")
    ensures ReasonFrom(s).evidence.Some? ==>
              var e := ReasonFrom(s).evidence.value; e.metric == s.metric && e.value == s.value && e.unit == s.unit
  {
  }

  ghost predicate Admissible(rows: seq<Row>, i: nat, s: Signal) {
    s.offer && (s.comparable ==> Unbeaten(rows, i, s.code, s.value))
  }

  /** The position of the first admissible signal of row `i`, or its length. */
  ghost function Choice(rows: seq<Row>, i: nat): (k: nat)
    requires i < |rows|
    ensures k <= |rows[i]|
    ensures k < |rows[i]| ==> Admissible(rows, i, rows[i][k])
    ensures forall m :: 0 <= m < k ==> !Admissible(rows, i, rows[i][m])
  {
    ChoiceFrom(rows, i, 0)
  }

  ghost function ChoiceFrom(rows: seq<Row>, i: nat, from: nat): (k: nat)
    requires i < |rows| && from <= |rows[i]|
    ensures from <= k <= |rows[i]|
    ensures k < |rows[i]| ==> Admissible(rows, i, rows[i][k])
    ensures forall m :: from <= m < k ==> !Admissible(rows, i, rows[i][m])
    decreases |rows[i]| - from
  {
    if from == |rows[i]| || Admissible(rows, i, rows[i][from]) then from else ChoiceFrom(rows, i, from + 1)
  }

  ghost function Chosen(rows: seq<Row>, i: nat): seq<Reason>
    requires i < |rows|
  {
    if Choice(rows, i) < |rows[i]| then [ReasonFrom(rows[i][Choice(rows, i)])] else []
  }

  method ChooseRankReasons(rows: seq<Row>) returns (out: seq<seq<Reason>>)
    ensures |out| == |rows| && forall i :: 0 <= i < |rows| ==> out[i] == Chosen(rows, i)
  {
    out := [];
    for i := 0 to |rows|
      invariant |out| == i && forall m :: 0 <= m < i ==> out[m] == Chosen(rows, m)
    {
      var picked := ChooseForRow(rows, i);
      out := out + [picked];
    }
  }

  method ChooseForRow(rows: seq<Row>, i: nat) returns (picked: seq<Reason>)
    requires i < |rows|
    ensures picked == Chosen(rows, i)
  {
    var signals := rows[i];
    var k := 0;
    while k < |signals|
      invariant 0 <= k <= |signals| && forall m :: 0 <= m < k ==> !Admissible(rows, i, signals[m])
    {
      var candidate := signals[k];
      var ok := candidate.offer;
      if ok && candidate.comparable {
        ok := SignalMonotonic(rows, i, candidate.code, candidate.value);
      }
      if ok {
        return [ReasonFrom(candidate)];
      }
      k := k + 1;
    }
    return [];
  }

  // ---------------------------------------------------------------- the promise

  ghost predicate UniqueCodes(row: Row) {
    forall a, b :: 0 <= a < b < |row| ==> row[a].code != row[b].code
  }

  lemma {:induction false} ByCodeUnique(row: Row, k: nat)
    requires UniqueCodes(row) && k < |row|
    ensures ByCode(row, row[k].code) == Some(row[k])
  {
    if k > 0 {
      ByCodeUnique(row[1..], k - 1);
    }
  }

  /**
   * A printed comparable number is not exceeded by more than the margin by any lower row that carries the same code,
   * printed or not; between any two rows, with nothing added up on the way.
   */
  lemma PrintedNumberIsNotBeaten(rows: seq<Row>, i: nat, j: nat, m: nat)
    requires forall r :: r in rows ==> UniqueCodes(r)
    requires i < j < |rows| && m < |rows[j]| && rows[j][m].comparable
    requires Choice(rows, i) < |rows[i]| && rows[i][Choice(rows, i)].comparable
    requires rows[j][m].code == rows[i][Choice(rows, i)].code
    ensures rows[j][m].value <= rows[i][Choice(rows, i)].value + EPSILON
  {
    assert rows[j] in rows;
    ByCodeUnique(rows[j], m);
  }

  /** A row passes over an offered number only because some lower row beats it. */
  lemma SkippedNumberIsBeaten(rows: seq<Row>, i: nat, k: nat) returns (j: nat, m: nat)
    requires i < |rows| && k < Choice(rows, i) && rows[i][k].offer
    ensures rows[i][k].comparable && i < j < |rows| && m < |rows[j]|
    ensures rows[j][m].code == rows[i][k].code && rows[j][m].comparable && rows[j][m].value > rows[i][k].value + EPSILON
  {
    var s := rows[i][k];
    assert !Admissible(rows, i, s);
    j :| i < j < |rows| && ByCode(rows[j], s.code).Some? && ByCode(rows[j], s.code).value.comparable &&
         ByCode(rows[j], s.code).value.value > s.value + EPSILON;
    m := ByCodeAt(rows[j], s.code);
  }

  lemma {:induction false} ByCodeAt(row: Row, code: string) returns (m: nat)
    requires ByCode(row, code).Some?
    ensures m < |row| && row[m].code == code && ByCode(row, code) == Some(row[m])
  {
    if row[0].code == code {
      m := 0;
    } else {
      m := ByCodeAt(row[1..], code);
      m := m + 1;
    }
  }

  /** What the builders guarantee of a row: one signal per code, and figures only from comparable signals. */
  ghost predicate Honest(row: Row) {
    UniqueCodes(row) && forall k :: 0 <= k < |row| && ReasonFrom(row[k]).evidence.Some? ==> row[k].comparable
  }

  /**
   * On a page of honest rows, a figure printed lower down for the same code is never larger by more than the margin.
   */
  lemma PageNeverRises(rows: seq<Row>, i: nat, j: nat)
    requires forall r :: r in rows ==> Honest(r)
    requires i < j < |rows| && Chosen(rows, i) != [] && Chosen(rows, j) != []
    ensures var a, b := Chosen(rows, i)[0], Chosen(rows, j)[0];
            a.code == b.code && a.evidence.Some? && b.evidence.Some? ==>
              b.evidence.value.value <= a.evidence.value.value + EPSILON
  {
    var k, m := Choice(rows, i), Choice(rows, j);
    assert rows[i] in rows && rows[j] in rows;
    if rows[i][k].code == rows[j][m].code && rows[i][k].comparable && rows[j][m].comparable {
      PrintedNumberIsNotBeaten(rows, i, j, m);
    }
  }

  // ---------------------------------------------------------------- the builders

  datatype Note = Note(replies: int, zaps: int, reactions: int, reposts: int, createdAt: int)

  /** `engagement` and `newFollowers` are the scored numbers, or the raw counts without them. */
  datatype Profile = Profile(score: real, engagement: real, newFollowers: real, followers: int, recentPosts: int,
                             activeAt: Option<int>)

  function CountSignal(code: string, metric: string, value: int, unit: string): Signal {
    Signal(code, metric, value as real, unit, value > 0, true, false)
  }

  function Recency(at: int): Signal {
    Signal("recency", "", at as real, "", true, true, true)
  }

  const COMBINED := Signal("combined_engagement", "", 0.0, "", true, false, false)

  function NoteSignals(note: Note, recencyMatters: bool): Row {
    [ CountSignal("reply_velocity", "reply_count", note.replies, "replies"),
      CountSignal("zap_support", "zap_count", note.zaps, "zaps"),
      CountSignal("recent_engagement", "reaction_count", note.reactions, "reactions"),
      CountSignal("repost_lift", "repost_count", note.reposts, "reposts") ] +
    (if recencyMatters && note.createdAt > 0 then [Recency(note.createdAt)] else []) +
    [COMBINED]
  }

  function RecencyOf(p: Profile): Row {
    if p.activeAt.Some? && p.activeAt.value > 0 then [Recency(p.activeAt.value)] else []
  }

  function TrendingSignals(p: Profile, window: string, recencyMatters: bool): Row {
    var rate := if p.recentPosts > 0 then p.engagement / (1.0 + p.recentPosts as real) else 0.0;
    (if window != "7d" && window != "30d"
     then [Signal("engagement_quality", "engagement_per_post", rate, "interactions per note",
                  p.recentPosts > 0 && p.engagement > 0.0 && rate >= 1.0, true, false)]
     else []) +
    [Signal("engagement_received", "recent_engagement_received", p.engagement, "interactions",
            p.engagement >= 1.0, true, false)] +
    (if recencyMatters then RecencyOf(p) else []) +
    (if p.score > 0.0 || p.engagement > 0.0 then [COMBINED] else [])
  }

  /** Growth beyond a noise floor of two, credited from ten on, scaled down for large audiences. */
  function Momentum(followers: int, newFollowers: real): real {
    var grown := if newFollowers > 2.0 then newFollowers - 2.0 else 0.0;
    var credited := if grown < 10.0 then 0.0 else grown;
    if followers > 500 then credited / (followers as real / 500.0) else credited
  }

  function RisingSignals(p: Profile): Row {
    var momentum := Momentum(p.followers, p.newFollowers);
    var dominates := momentum > 0.0 && momentum + EPSILON >= p.score - momentum;
    var perFollower := p.engagement / (1.0 + (if p.followers < 0 then 0 else p.followers) as real);
    [ Signal("follower_growth", "follower_momentum", momentum, "followers", dominates && momentum >= 2.0, true, false),
      Signal("relative_engagement_growth", "engagement_per_follower", perFollower, "interactions per follower",
             p.engagement > RISING_ENGAGEMENT_FLOOR && perFollower >= 1.0, true, false),
      Signal("engagement_received", "recent_engagement_received", p.engagement, "interactions",
             p.engagement > RISING_ENGAGEMENT_FLOOR, true, false) ] +
    RecencyOf(p) +
    (if p.score > 0.0 || p.engagement > 0.0 || momentum > 0.0 then [COMBINED] else [])
  }

  lemma NoteRowIsHonest(note: Note, recencyMatters: bool)
    ensures Honest(NoteSignals(note, recencyMatters))
  {
    var row := NoteSignals(note, recencyMatters);
    forall a, b | 0 <= a < b < |row| ensures row[a].code != row[b].code {
      assert |row[a].code| != |row[b].code| || row[a].code[0] != row[b].code[0];
    }
  }

  lemma TrendingRowIsHonest(p: Profile, window: string, recencyMatters: bool)
    ensures Honest(TrendingSignals(p, window, recencyMatters))
  {
    var row := TrendingSignals(p, window, recencyMatters);
    forall a, b | 0 <= a < b < |row| ensures row[a].code != row[b].code {
      assert |row[a].code| != |row[b].code| || row[a].code[0] != row[b].code[0];
    }
  }

  lemma RisingRowIsHonest(p: Profile)
    ensures Honest(RisingSignals(p))
  {
    var row := RisingSignals(p);
    forall a, b | 0 <= a < b < |row| ensures row[a].code != row[b].code {
      assert |row[a].code| != |row[b].code| || row[a].code[0] != row[b].code[0];
    }
  }

  /** Every note row gets exactly one reason. */
  lemma NoteRowHasOneReason(rows: seq<Row>, i: nat, note: Note, recencyMatters: bool)
    requires i < |rows| && rows[i] == NoteSignals(note, recencyMatters)
    ensures |Chosen(rows, i)| == 1
  {
    assert Admissible(rows, i, rows[i][|rows[i]| - 1]);
  }

  ghost predicate RecencyPrints(rows: seq<Row>, i: nat, p: Profile) {
    p.activeAt.Some? && p.activeAt.value > 0 && Unbeaten(rows, i, "recency", p.activeAt.value as real)
  }

  /** A trending profile is left without a reason exactly if it has no score, no engagement and no recency to cite. */
  lemma TrendingRowHasReasonIff(rows: seq<Row>, i: nat, p: Profile, window: string, recencyMatters: bool)
    requires i < |rows| && rows[i] == TrendingSignals(p, window, recencyMatters)
    ensures |Chosen(rows, i)| == 1 <==> p.score > 0.0 || p.engagement > 0.0 || (recencyMatters && RecencyPrints(rows, i, p))
  {
    var row := rows[i];
    if p.score > 0.0 || p.engagement > 0.0 {
      assert Admissible(rows, i, row[|row| - 1]);
    } else if recencyMatters && RecencyOf(p) != [] {
      assert row[|row| - 1] == Recency(p.activeAt.value);
      assert Admissible(rows, i, row[|row| - 1]) <==> RecencyPrints(rows, i, p);
    }
  }

  lemma RisingRowHasReasonIff(rows: seq<Row>, i: nat, p: Profile)
    requires i < |rows| && rows[i] == RisingSignals(p)
    ensures |Chosen(rows, i)| == 1 <==>
            p.score > 0.0 || p.engagement > 0.0 || Momentum(p.followers, p.newFollowers) > 0.0 || RecencyPrints(rows, i, p)
  {
    var row := rows[i];
    if p.score > 0.0 || p.engagement > 0.0 || Momentum(p.followers, p.newFollowers) > 0.0 {
      assert Admissible(rows, i, row[|row| - 1]);
    } else if RecencyOf(p) != [] {
      assert row[|row| - 1] == Recency(p.activeAt.value);
      assert Admissible(rows, i, row[|row| - 1]) <==> RecencyPrints(rows, i, p);
    }
  }

  // ---------------------------------------------------------------- what is printed

  function Figure(code: string, metric: string, value: real, unit: string): Reason {
    Reason(code, Some(Evidence(metric, value, unit)))
  }

  function Plain(code: string): Reason {
    Reason(code, None)
  }

  /** No later number is larger. */
  ghost predicate TopsInts(xs: seq<int>, i: nat)
    requires i < |xs|
  {
    forall j :: i < j < |xs| ==> xs[j] <= xs[i]
  }

  /** No later number is larger by more than a thousandth. */
  ghost predicate TopsReals(xs: seq<real>, i: nat)
    requires i < |xs|
  {
    forall j :: i < j < |xs| ==> xs[j] <= xs[i] + 0.001
  }

  lemma IntGap(a: int, b: int)
    ensures a as real <= b as real + EPSILON <==> a <= b
  {
  }

  lemma {:induction false} ByCodeNone(row: Row, code: string)
    requires forall k :: 0 <= k < |row| ==> row[k].code != code
    ensures ByCode(row, code) == None
  {
    if row != [] {
      ByCodeNone(row[1..], code);
    }
  }

  lemma FirstAdmissible(rows: seq<Row>, i: nat, k: nat)
    requires i < |rows| && k < |rows[i]| && Admissible(rows, i, rows[i][k])
    requires forall m :: 0 <= m < k ==> !Admissible(rows, i, rows[i][m])
    ensures Chosen(rows, i) == [ReasonFrom(rows[i][k])]
  {
    assert Choice(rows, i) == k;
  }

  /** Column `k` of the page carries comparable signals with one code and the given values. */
  ghost predicate Column(rows: seq<Row>, k: nat, code: string, xs: seq<real>) {
    |rows| == |xs| && forall j :: 0 <= j < |rows| ==>
      && Honest(rows[j]) && k < |rows[j]|
      && rows[j][k].code == code && rows[j][k].comparable && rows[j][k].value == xs[j]
  }

  lemma ColumnTops(rows: seq<Row>, i: nat, k: nat, code: string, xs: seq<real>)
    requires i < |rows| && Column(rows, k, code, xs)
    ensures Admissible(rows, i, rows[i][k]) <==> rows[i][k].offer && TopsReals(xs, i)
  {
    forall j | 0 <= j < |rows| ensures ByCode(rows[j], code) == Some(rows[j][k]) {
      ByCodeUnique(rows[j], k);
    }
  }

  function AsReals(xs: seq<int>): seq<real> {
    seq(|xs|, j requires 0 <= j < |xs| => xs[j] as real)
  }

  lemma TopsAsReals(xs: seq<int>, i: nat)
    requires i < |xs|
    ensures TopsReals(AsReals(xs), i) <==> TopsInts(xs, i)
  {
    var ys := AsReals(xs);
    forall j | i < j < |xs| ensures ys[j] <= ys[i] + 0.001 <==> xs[j] <= xs[i] {
      IntGap(xs[j], xs[i]);
    }
  }

  /** Rows with a positive time carry it as their recency, the others carry none. */
  ghost predicate TimeColumn(rows: seq<Row>, k: nat, code: string, xs: seq<int>) {
    |rows| == |xs| && forall j :: 0 <= j < |rows| ==>
      && Honest(rows[j])
      && (xs[j] > 0 ==> k < |rows[j]| && rows[j][k].code == code && rows[j][k].comparable && rows[j][k].value == xs[j] as real)
      && (xs[j] <= 0 ==> forall m :: 0 <= m < |rows[j]| ==> rows[j][m].code != code)
  }

  lemma TimesTop(rows: seq<Row>, i: nat, k: nat, code: string, xs: seq<int>)
    requires i < |rows| && TimeColumn(rows, k, code, xs) && xs[i] > 0
    ensures Admissible(rows, i, rows[i][k]) <==> rows[i][k].offer && TopsInts(xs, i)
  {
    forall j | 0 <= j < |rows|
      ensures xs[j] > 0 ==> ByCode(rows[j], code) == Some(rows[j][k])
      ensures xs[j] <= 0 ==> ByCode(rows[j], code) == None
    {
      if xs[j] > 0 {
        ByCodeUnique(rows[j], k);
      } else {
        ByCodeNone(rows[j], code);
      }
    }
    forall j | i < j < |rows| ensures xs[j] as real <= xs[i] as real + EPSILON <==> xs[j] <= xs[i] {
      IntGap(xs[j], xs[i]);
    }
  }

  ghost function RepliesOf(notes: seq<Note>): seq<int> {
    seq(|notes|, j requires 0 <= j < |notes| => notes[j].replies)
  }

  ghost function ZapsOf(notes: seq<Note>): seq<int> {
    seq(|notes|, j requires 0 <= j < |notes| => notes[j].zaps)
  }

  ghost function ReactionsOf(notes: seq<Note>): seq<int> {
    seq(|notes|, j requires 0 <= j < |notes| => notes[j].reactions)
  }

  ghost function RepostsOf(notes: seq<Note>): seq<int> {
    seq(|notes|, j requires 0 <= j < |notes| => notes[j].reposts)
  }

  ghost function TimesOf(notes: seq<Note>): seq<int> {
    seq(|notes|, j requires 0 <= j < |notes| => notes[j].createdAt)
  }

  /**
   * The reason of a note: the first of its counts of replies, zaps, reactions and reposts that is positive and that no
   * lower note exceeds, else its time if that matters and no lower note is newer, else a word that claims no number.
   */
  ghost function NoteReason(notes: seq<Note>, recencyMatters: bool, i: nat): Reason
    requires i < |notes|
  {
    var n := notes[i];
    if n.replies > 0 && TopsInts(RepliesOf(notes), i) then
      Figure("reply_velocity", "reply_count", n.replies as real, "replies")
    else if n.zaps > 0 && TopsInts(ZapsOf(notes), i) then
      Figure("zap_support", "zap_count", n.zaps as real, "zaps")
    else if n.reactions > 0 && TopsInts(ReactionsOf(notes), i) then
      Figure("recent_engagement", "reaction_count", n.reactions as real, "reactions")
    else if n.reposts > 0 && TopsInts(RepostsOf(notes), i) then
      Figure("repost_lift", "repost_count", n.reposts as real, "reposts")
    else if recencyMatters && n.createdAt > 0 && TopsInts(TimesOf(notes), i) then Plain("recency")
    else Plain("combined_engagement")
  }

  lemma NoteRowsHonest(notes: seq<Note>, recencyMatters: bool)
    ensures forall j :: 0 <= j < |notes| ==> Honest(NoteRows(notes, recencyMatters)[j])
  {
    forall j | 0 <= j < |notes| ensures Honest(NoteRows(notes, recencyMatters)[j]) {
      NoteRowIsHonest(notes[j], recencyMatters);
    }
  }

  lemma NoteCountAdmitted(notes: seq<Note>, recencyMatters: bool, i: nat, k: nat, code: string, xs: seq<int>)
    requires i < |notes| == |xs| && k < 4
    requires forall j :: 0 <= j < |notes| ==>
               var s := NoteRows(notes, recencyMatters)[j][k];
               s.code == code && s.comparable && s.value == xs[j] as real && s.offer == (xs[j] > 0)
    ensures var rows := NoteRows(notes, recencyMatters);
            Admissible(rows, i, rows[i][k]) <==> xs[i] > 0 && TopsInts(xs, i)
  {
    var rows := NoteRows(notes, recencyMatters);
    NoteRowsHonest(notes, recencyMatters);
    assert Column(rows, k, code, AsReals(xs));
    ColumnTops(rows, i, k, code, AsReals(xs));
    TopsAsReals(xs, i);
  }

  lemma NoteTimeAdmitted(notes: seq<Note>, i: nat)
    requires i < |notes| && notes[i].createdAt > 0
    ensures var rows := NoteRows(notes, true); Admissible(rows, i, rows[i][4]) <==> TopsInts(TimesOf(notes), i)
  {
    var rows: seq<Row> := NoteRows(notes, true);
    NoteRowsHonest(notes, true);
    forall j: nat | 0 <= j < |notes| && notes[j].createdAt <= 0
      ensures forall m :: 0 <= m < |rows[j]| ==> rows[j][m].code != "recency"
    {
      NoRecency(notes[j]);
    }
    assert TimeColumn(rows, 4, "recency", TimesOf(notes));
    TimesTop(rows, i, 4, "recency", TimesOf(notes));
  }

  lemma NoRecency(note: Note)
    requires note.createdAt <= 0
    ensures forall m :: 0 <= m < |NoteSignals(note, true)| ==> NoteSignals(note, true)[m].code != "recency"
  {
    var row := NoteSignals(note, true);
    forall m | 0 <= m < |row| ensures row[m].code != "recency" {
      assert |row[m].code| != |"recency"|;
    }
  }

  lemma NoteAdmittedFirst(notes: seq<Note>, recencyMatters: bool, i: nat)
    requires i < |notes|
    ensures var rows := NoteRows(notes, recencyMatters);
            && (Admissible(rows, i, rows[i][0]) <==> notes[i].replies > 0 && TopsInts(RepliesOf(notes), i))
            && (Admissible(rows, i, rows[i][1]) <==> notes[i].zaps > 0 && TopsInts(ZapsOf(notes), i))
  {
    NoteCountAdmitted(notes, recencyMatters, i, 0, "reply_velocity", RepliesOf(notes));
    NoteCountAdmitted(notes, recencyMatters, i, 1, "zap_support", ZapsOf(notes));
  }

  lemma NoteAdmittedNext(notes: seq<Note>, recencyMatters: bool, i: nat)
    requires i < |notes|
    ensures var rows := NoteRows(notes, recencyMatters);
            && (Admissible(rows, i, rows[i][2]) <==> notes[i].reactions > 0 && TopsInts(ReactionsOf(notes), i))
            && (Admissible(rows, i, rows[i][3]) <==> notes[i].reposts > 0 && TopsInts(RepostsOf(notes), i))
  {
    NoteCountAdmitted(notes, recencyMatters, i, 2, "recent_engagement", ReactionsOf(notes));
    NoteCountAdmitted(notes, recencyMatters, i, 3, "repost_lift", RepostsOf(notes));
  }

  /** The place of the chosen signal. */
  ghost function NotePlace(notes: seq<Note>, recencyMatters: bool, i: nat): nat
    requires i < |notes|
  {
    var n := notes[i];
    if n.replies > 0 && TopsInts(RepliesOf(notes), i) then 0
    else if n.zaps > 0 && TopsInts(ZapsOf(notes), i) then 1
    else if n.reactions > 0 && TopsInts(ReactionsOf(notes), i) then 2
    else if n.reposts > 0 && TopsInts(RepostsOf(notes), i) then 3
    else if recencyMatters && n.createdAt > 0 && TopsInts(TimesOf(notes), i) then 4
    else |NoteSignals(n, recencyMatters)| - 1
  }

  lemma NotePlaceAdmitted(notes: seq<Note>, recencyMatters: bool, i: nat)
    requires i < |notes|
    ensures var rows, k := NoteRows(notes, recencyMatters), NotePlace(notes, recencyMatters, i);
            && k < |rows[i]| && Admissible(rows, i, rows[i][k])
            && forall m :: 0 <= m < k ==> !Admissible(rows, i, rows[i][m])
  {
    NoteAdmittedFirst(notes, recencyMatters, i);
    NoteAdmittedNext(notes, recencyMatters, i);
    if recencyMatters && notes[i].createdAt > 0 {
      NoteTimeAdmitted(notes, i);
    }
  }

  lemma NotePlacePrints(notes: seq<Note>, recencyMatters: bool, i: nat)
    requires i < |notes|
    ensures ReasonFrom(NoteSignals(notes[i], recencyMatters)[NotePlace(notes, recencyMatters, i)]) ==
            NoteReason(notes, recencyMatters, i)
  {
  }

  lemma NoteChoice(notes: seq<Note>, recencyMatters: bool, i: nat)
    requires i < |notes|
    ensures Chosen(NoteRows(notes, recencyMatters), i) == [NoteReason(notes, recencyMatters, i)]
  {
    NotePlaceAdmitted(notes, recencyMatters, i);
    FirstAdmissible(NoteRows(notes, recencyMatters), i, NotePlace(notes, recencyMatters, i));
    NotePlacePrints(notes, recencyMatters, i);
  }

  function NoteRows(notes: seq<Note>, recencyMatters: bool): seq<Row> {
    seq(|notes|, i requires 0 <= i < |notes| => NoteSignals(notes[i], recencyMatters))
  }

  /** A figure printed for a code is not exceeded by more than the margin by the figure any lower row prints for it. */
  ghost predicate NeverRises(page: seq<seq<Reason>>) {
    forall i, j, a, b :: 0 <= i < j < |page| && a in page[i] && b in page[j] && a.code == b.code &&
                         a.evidence.Some? && b.evidence.Some? ==>
      b.evidence.value.value <= a.evidence.value.value + EPSILON
  }

  lemma ChosenNeverRise(rows: seq<Row>, page: seq<seq<Reason>>)
    requires |page| == |rows| && (forall j :: 0 <= j < |rows| ==> Honest(rows[j]))
    requires forall i :: 0 <= i < |rows| ==> page[i] == Chosen(rows, i)
    ensures NeverRises(page)
  {
    forall i, j | 0 <= i < j < |page| && page[i] != [] && page[j] != []
      ensures page[i][0].code == page[j][0].code && page[i][0].evidence.Some? && page[j][0].evidence.Some? ==>
                page[j][0].evidence.value.value <= page[i][0].evidence.value.value + EPSILON
    {
      PageNeverRises(rows, i, j);
    }
  }

  /** The notes page as printed: the reason of each row on the page, and figures that never rise. */
  method BuildNoteRankings(notes: seq<Note>, recencyMatters: bool) returns (out: seq<seq<Reason>>)
    ensures |out| == |notes| && NeverRises(out)
    ensures forall i :: 0 <= i < |notes| ==> out[i] == [NoteReason(notes, recencyMatters, i)]
  {
    var rows: seq<Row> := [];
    for i := 0 to |notes|
      invariant rows == NoteRows(notes[..i], recencyMatters)
    {
      rows := rows + [NoteSignals(notes[i], recencyMatters)];
    }
    assert notes[..|notes|] == notes;
    out := ChooseRankReasons(rows);
    NoteRowsHonest(notes, recencyMatters);
    ChosenNeverRise(rows, out);
    forall i | 0 <= i < |notes| ensures out[i] == [NoteReason(notes, recencyMatters, i)] {
      NoteChoice(notes, recencyMatters, i);
    }
  }

  function RateOf(p: Profile): real {
    if p.recentPosts > 0 then p.engagement / (1.0 + p.recentPosts as real) else 0.0
  }

  ghost function RatesOf(ps: seq<Profile>): seq<real> {
    seq(|ps|, j requires 0 <= j < |ps| => RateOf(ps[j]))
  }

  ghost function EngagementsOf(ps: seq<Profile>): seq<real> {
    seq(|ps|, j requires 0 <= j < |ps| => ps[j].engagement)
  }

  ghost function ActiveOf(ps: seq<Profile>): seq<int> {
    seq(|ps|, j requires 0 <= j < |ps| => if ps[j].activeAt.Some? then ps[j].activeAt.value else 0)
  }

  ghost function GrowthOf(ps: seq<Profile>): seq<real> {
    seq(|ps|, j requires 0 <= j < |ps| => Growth(ps[j]))
  }

  ghost function PerFollowerOf(ps: seq<Profile>): seq<real> {
    seq(|ps|, j requires 0 <= j < |ps| => PerFollower(ps[j]))
  }

  /** Twelve or more new followers count, less two, and less the more of them there are beyond five hundred. */
  function Growth(p: Profile): real {
    if p.newFollowers < 12.0 then 0.0
    else if p.followers <= 500 then p.newFollowers - 2.0
    else (p.newFollowers - 2.0) * 500.0 / p.followers as real
  }

  function PerFollower(p: Profile): real {
    if p.followers <= 0 then p.engagement else p.engagement / (1.0 + p.followers as real)
  }

  lemma MomentumIs(p: Profile)
    ensures Momentum(p.followers, p.newFollowers) == Growth(p)
  {
    if p.newFollowers >= 12.0 && p.followers > 500 {
      var grown, f := p.newFollowers - 2.0, p.followers as real;
      assert grown / (f / 500.0) == grown * 500.0 / f;
    }
  }

  /** The reason of a trending profile, if it has one. */
  ghost function TrendingReason(ps: seq<Profile>, window: string, recencyMatters: bool, i: nat): Option<Reason>
    requires i < |ps|
  {
    var p := ps[i];
    if window !in {"7d", "30d"} && p.recentPosts > 0 && p.engagement > 0.0 && RateOf(p) >= 1.0 && TopsReals(RatesOf(ps), i) then
      Some(Figure("engagement_quality", "engagement_per_post", RateOf(p), "interactions per note"))
    else if p.engagement >= 1.0 && TopsReals(EngagementsOf(ps), i) then
      Some(Figure("engagement_received", "recent_engagement_received", p.engagement, "interactions"))
    else if recencyMatters && ActiveOf(ps)[i] > 0 && TopsInts(ActiveOf(ps), i) then Some(Plain("recency"))
    else if p.score > 0.0 || p.engagement > 0.0 then Some(Plain("combined_engagement"))
    else None
  }

  /** The reason of a rising profile, if it has one. */
  ghost function RisingReason(ps: seq<Profile>, i: nat): Option<Reason>
    requires i < |ps|
  {
    var p := ps[i];
    if Growth(p) >= 2.0 && 2.0 * Growth(p) + 0.001 >= p.score && TopsReals(GrowthOf(ps), i) then
      Some(Figure("follower_growth", "follower_momentum", Growth(p), "followers"))
    else if p.engagement > 1.0 && PerFollower(p) >= 1.0 && TopsReals(PerFollowerOf(ps), i) then
      Some(Figure("relative_engagement_growth", "engagement_per_follower", PerFollower(p), "interactions per follower"))
    else if p.engagement > 1.0 && TopsReals(EngagementsOf(ps), i) then
      Some(Figure("engagement_received", "recent_engagement_received", p.engagement, "interactions"))
    else if ActiveOf(ps)[i] > 0 && TopsInts(ActiveOf(ps), i) then Some(Plain("recency"))
    else if p.score > 0.0 || p.engagement > 0.0 || Growth(p) > 0.0 then Some(Plain("combined_engagement"))
    else None
  }

  datatype Surface = Trending(window: string, recencyMatters: bool) | Rising

  function ProfileSignals(p: Profile, surface: Surface): Row {
    if surface.Trending? then TrendingSignals(p, surface.window, surface.recencyMatters) else RisingSignals(p)
  }

  function ProfileRows(profiles: seq<Profile>, surface: Surface): seq<Row> {
    seq(|profiles|, i requires 0 <= i < |profiles| => ProfileSignals(profiles[i], surface))
  }

  lemma ProfileRowsHonest(ps: seq<Profile>, surface: Surface)
    ensures forall j :: 0 <= j < |ps| ==> Honest(ProfileRows(ps, surface)[j])
  {
    forall j | 0 <= j < |ps| ensures Honest(ProfileRows(ps, surface)[j]) {
      if surface.Trending? {
        TrendingRowIsHonest(ps[j], surface.window, surface.recencyMatters);
      } else {
        RisingRowIsHonest(ps[j]);
      }
    }
  }

  lemma ProfileColumn(ps: seq<Profile>, surface: Surface, i: nat, k: nat, code: string, xs: seq<real>)
    requires i < |ps| == |xs|
    requires forall j :: 0 <= j < |ps| ==>
               var row := ProfileRows(ps, surface)[j];
               k < |row| && row[k].code == code && row[k].comparable && row[k].value == xs[j]
    ensures var rows := ProfileRows(ps, surface);
            Admissible(rows, i, rows[i][k]) <==> rows[i][k].offer && TopsReals(xs, i)
  {
    ProfileRowsHonest(ps, surface);
    assert Column(ProfileRows(ps, surface), k, code, xs);
    ColumnTops(ProfileRows(ps, surface), i, k, code, xs);
  }

  /** Where the recency signal stands if there is one. */
  function RecencyPlace(surface: Surface): nat {
    if surface.Rising? then 3 else if surface.window in {"7d", "30d"} then 1 else 2
  }

  lemma RecencyOnlyThere(p: Profile, surface: Surface)
    requires surface.Trending? ==> surface.recencyMatters
    ensures var row, k := ProfileSignals(p, surface), RecencyPlace(surface);
            if p.activeAt.Some? && p.activeAt.value > 0 then k < |row| && row[k] == Recency(p.activeAt.value)
            else forall m :: 0 <= m < |row| ==> row[m].code != "recency"
  {
    var row := ProfileSignals(p, surface);
    if !(p.activeAt.Some? && p.activeAt.value > 0) {
      forall m | 0 <= m < |row| ensures row[m].code != "recency" {
        assert |row[m].code| != |"recency"|;
      }
    }
  }

  lemma ProfileTimeAdmitted(ps: seq<Profile>, surface: Surface, i: nat)
    requires i < |ps| && ActiveOf(ps)[i] > 0 && (surface.Trending? ==> surface.recencyMatters)
    ensures var rows, k := ProfileRows(ps, surface), RecencyPlace(surface);
            k < |rows[i]| && (Admissible(rows, i, rows[i][k]) <==> TopsInts(ActiveOf(ps), i))
  {
    var rows, k := ProfileRows(ps, surface), RecencyPlace(surface);
    ProfileRowsHonest(ps, surface);
    forall j | 0 <= j < |ps|
      ensures ActiveOf(ps)[j] > 0 ==> k < |rows[j]| && rows[j][k] == Recency(ActiveOf(ps)[j])
      ensures ActiveOf(ps)[j] <= 0 ==> forall m :: 0 <= m < |rows[j]| ==> rows[j][m].code != "recency"
    {
      RecencyOnlyThere(ps[j], surface);
    }
    assert TimeColumn(rows, k, "recency", ActiveOf(ps));
    TimesTop(rows, i, k, "recency", ActiveOf(ps));
  }

  lemma QualityAdmitted(ps: seq<Profile>, window: string, recencyMatters: bool, i: nat)
    requires i < |ps| && window !in {"7d", "30d"}
    ensures var rows, p := ProfileRows(ps, Trending(window, recencyMatters)), ps[i];
            Admissible(rows, i, rows[i][0]) <==>
            p.recentPosts > 0 && p.engagement > 0.0 && RateOf(p) >= 1.0 && TopsReals(RatesOf(ps), i)
  {
    ProfileColumn(ps, Trending(window, recencyMatters), i, 0, "engagement_quality", RatesOf(ps));
  }

  lemma ReceivedAdmitted(ps: seq<Profile>, window: string, recencyMatters: bool, i: nat)
    requires i < |ps|
    ensures var rows, k := ProfileRows(ps, Trending(window, recencyMatters)), if window in {"7d", "30d"} then 0 else 1;
            Admissible(rows, i, rows[i][k]) <==> ps[i].engagement >= 1.0 && TopsReals(EngagementsOf(ps), i)
  {
    var k := if window in {"7d", "30d"} then 0 else 1;
    ProfileColumn(ps, Trending(window, recencyMatters), i, k, "engagement_received", EngagementsOf(ps));
  }

  lemma GrowthAdmitted(ps: seq<Profile>, i: nat)
    requires i < |ps|
    ensures var rows, p := ProfileRows(ps, Rising), ps[i];
            Admissible(rows, i, rows[i][0]) <==>
            Growth(p) >= 2.0 && 2.0 * Growth(p) + 0.001 >= p.score && TopsReals(GrowthOf(ps), i)
  {
    forall j | 0 <= j < |ps| ensures Momentum(ps[j].followers, ps[j].newFollowers) == Growth(ps[j]) {
      MomentumIs(ps[j]);
    }
    ProfileColumn(ps, Rising, i, 0, "follower_growth", GrowthOf(ps));
  }

  lemma RelativeAdmitted(ps: seq<Profile>, i: nat)
    requires i < |ps|
    ensures var rows, p := ProfileRows(ps, Rising), ps[i];
            Admissible(rows, i, rows[i][1]) <==>
            p.engagement > 1.0 && PerFollower(p) >= 1.0 && TopsReals(PerFollowerOf(ps), i)
  {
    ProfileColumn(ps, Rising, i, 1, "relative_engagement_growth", PerFollowerOf(ps));
  }

  lemma RisingReceivedAdmitted(ps: seq<Profile>, i: nat)
    requires i < |ps|
    ensures var rows := ProfileRows(ps, Rising);
            Admissible(rows, i, rows[i][2]) <==> ps[i].engagement > 1.0 && TopsReals(EngagementsOf(ps), i)
  {
    ProfileColumn(ps, Rising, i, 2, "engagement_received", EngagementsOf(ps));
  }

  lemma NoneAdmissible(rows: seq<Row>, i: nat)
    requires i < |rows| && forall m :: 0 <= m < |rows[i]| ==> !Admissible(rows, i, rows[i][m])
    ensures Chosen(rows, i) == []
  {
  }

  function AsList(o: Option<Reason>): seq<Reason> {
    if o.Some? then [o.value] else []
  }

  /** What the row prints is the first admissible signal, or nothing. */
  ghost predicate FirstIs(rows: seq<Row>, i: nat, o: Option<Reason>)
    requires i < |rows|
  {
    || (o.None? && forall m :: 0 <= m < |rows[i]| ==> !Admissible(rows, i, rows[i][m]))
    || (exists k :: 0 <= k < |rows[i]| && Admissible(rows, i, rows[i][k]) && o == Some(ReasonFrom(rows[i][k])) &&
                    forall m :: 0 <= m < k ==> !Admissible(rows, i, rows[i][m]))
  }

  lemma FirstIsChosen(rows: seq<Row>, i: nat, o: Option<Reason>)
    requires i < |rows| && FirstIs(rows, i, o)
    ensures Chosen(rows, i) == AsList(o)
  {
    if forall m :: 0 <= m < |rows[i]| ==> !Admissible(rows, i, rows[i][m]) {
      NoneAdmissible(rows, i);
    } else {
      var k :| 0 <= k < |rows[i]| && Admissible(rows, i, rows[i][k]) && o == Some(ReasonFrom(rows[i][k])) &&
               forall m :: 0 <= m < k ==> !Admissible(rows, i, rows[i][m]);
      FirstAdmissible(rows, i, k);
    }
  }

  lemma TrendingChoice(ps: seq<Profile>, window: string, recencyMatters: bool, i: nat)
    requires i < |ps|
    ensures Chosen(ProfileRows(ps, Trending(window, recencyMatters)), i) ==
            AsList(TrendingReason(ps, window, recencyMatters, i))
  {
    TrendingFirst(ps, window, recencyMatters, i);
    FirstIsChosen(ProfileRows(ps, Trending(window, recencyMatters)), i, TrendingReason(ps, window, recencyMatters, i));
  }

  lemma TrendingFirst(ps: seq<Profile>, window: string, recencyMatters: bool, i: nat)
    requires i < |ps|
    ensures FirstIs(ProfileRows(ps, Trending(window, recencyMatters)), i, TrendingReason(ps, window, recencyMatters, i))
  {
    var surface := Trending(window, recencyMatters);
    var rows, p := ProfileRows(ps, surface), ps[i];
    var q := if window in {"7d", "30d"} then 0 else 1;
    var last := |rows[i]| - 1;
    ReceivedAdmitted(ps, window, recencyMatters, i);
    if q == 1 {
      QualityAdmitted(ps, window, recencyMatters, i);
    }
    if recencyMatters && ActiveOf(ps)[i] > 0 {
      ProfileTimeAdmitted(ps, surface, i);
      assert Admissible(rows, i, rows[i][q + 1]) <==> TopsInts(ActiveOf(ps), i);
    }
    if p.score > 0.0 || p.engagement > 0.0 {
      assert rows[i][last] == COMBINED && Admissible(rows, i, rows[i][last]);
    }
  }

  /** The place of the chosen signal, or the length of the row. */
  ghost function RisingPlace(ps: seq<Profile>, i: nat): nat
    requires i < |ps|
  {
    var p, n := ps[i], |RisingSignals(ps[i])|;
    if Growth(p) >= 2.0 && 2.0 * Growth(p) + 0.001 >= p.score && TopsReals(GrowthOf(ps), i) then 0
    else if p.engagement > 1.0 && PerFollower(p) >= 1.0 && TopsReals(PerFollowerOf(ps), i) then 1
    else if p.engagement > 1.0 && TopsReals(EngagementsOf(ps), i) then 2
    else if ActiveOf(ps)[i] > 0 && TopsInts(ActiveOf(ps), i) then 3
    else if p.score > 0.0 || p.engagement > 0.0 || Growth(p) > 0.0 then n - 1
    else n
  }

  lemma RisingPlaceAdmitted(ps: seq<Profile>, i: nat)
    requires i < |ps|
    ensures var rows, k := ProfileRows(ps, Rising), RisingPlace(ps, i);
            && k <= |rows[i]| && (k < |rows[i]| ==> Admissible(rows, i, rows[i][k]))
            && forall m :: 0 <= m < k ==> !Admissible(rows, i, rows[i][m])
  {
    var rows := ProfileRows(ps, Rising);
    GrowthAdmitted(ps, i);
    RelativeAdmitted(ps, i);
    RisingReceivedAdmitted(ps, i);
    RisingShape(ps[i]);
    if ActiveOf(ps)[i] > 0 {
      ProfileTimeAdmitted(ps, Rising, i);
      assert Admissible(rows, i, rows[i][3]) <==> TopsInts(ActiveOf(ps), i);
    }
  }

  lemma RisingShape(p: Profile)
    ensures var row := RisingSignals(p);
            var timed := p.activeAt.Some? && p.activeAt.value > 0;
            var scored := p.score > 0.0 || p.engagement > 0.0 || Growth(p) > 0.0;
            && |row| == 3 + (if timed then 1 else 0) + (if scored then 1 else 0)
            && (scored ==> row[|row| - 1] == COMBINED)
  {
    MomentumIs(p);
  }

  lemma RisingPlacePrints(ps: seq<Profile>, i: nat)
    requires i < |ps|
    ensures var row, k := RisingSignals(ps[i]), RisingPlace(ps, i);
            RisingReason(ps, i) == if k < |row| then Some(ReasonFrom(row[k])) else None
  {
    MomentumIs(ps[i]);
    RisingShape(ps[i]);
  }

  lemma RisingFirst(ps: seq<Profile>, i: nat)
    requires i < |ps|
    ensures FirstIs(ProfileRows(ps, Rising), i, RisingReason(ps, i))
  {
    RisingPlaceAdmitted(ps, i);
    RisingPlacePrints(ps, i);
  }

  lemma RisingChoice(ps: seq<Profile>, i: nat)
    requires i < |ps|
    ensures Chosen(ProfileRows(ps, Rising), i) == AsList(RisingReason(ps, i))
  {
    RisingFirst(ps, i);
    FirstIsChosen(ProfileRows(ps, Rising), i, RisingReason(ps, i));
  }

  ghost function ProfileReason(ps: seq<Profile>, surface: Surface, i: nat): Option<Reason>
    requires i < |ps|
  {
    if surface.Trending? then TrendingReason(ps, surface.window, surface.recencyMatters, i) else RisingReason(ps, i)
  }

  /** The profiles page as printed: the reason of each row on the page, if it has one, and figures that never rise. */
  method AssignProfileRankings(profiles: seq<Profile>, surface: Surface) returns (out: seq<seq<Reason>>)
    ensures |out| == |profiles| && NeverRises(out)
    ensures forall i :: 0 <= i < |profiles| ==> out[i] == AsList(ProfileReason(profiles, surface, i))
  {
    var rows: seq<Row> := [];
    for i := 0 to |profiles|
      invariant rows == ProfileRows(profiles[..i], surface)
    {
      rows := rows + [ProfileSignals(profiles[i], surface)];
    }
    assert profiles[..|profiles|] == profiles;
    out := ChooseRankReasons(rows);
    ProfileRowsHonest(profiles, surface);
    ChosenNeverRise(rows, out);
    forall i | 0 <= i < |profiles| ensures out[i] == AsList(ProfileReason(profiles, surface, i)) {
      if surface.Trending? {
        TrendingChoice(profiles, surface.window, surface.recencyMatters, i);
      } else {
        RisingChoice(profiles, i);
      }
    }
  }
}
