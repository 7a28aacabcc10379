/** Reference IDs of alert queries: letters counted in bijective base 26, given to the queries that have none. */
module RefId {
  import opened Wrappers

  function Letter(d: nat): char
    requires d < 26
  {
    'A' + d as char
  }

  /** The ID of an index: A, B, ..., Z, AA, AB, ... */
  function RefOf(i: nat): string {
    (if i < 26 then [] else RefOf(i / 26 - 1)) + [Letter(i % 26)]
  }

  /** indexToRefID. */
  method IndexToRefID(index: nat) returns (result: string)
    ensures result == RefOf(index)
  {
    result := "";
    var i: int := index;
    while true
      invariant i >= 0 && RefOf(index) == RefOf(i) + result
      decreases i
    {
      var letter := Letter(i % 26);
      assert RefOf(i) + result == (if i < 26 then [] else RefOf(i / 26 - 1)) + ([letter] + result);
      result := [letter] + result;
      i := i / 26 - 1;
      if i < 0 {
        break;
      }
    }
  }

  predicate Letters(s: string) {
    s != [] && forall k | 0 <= k < |s| :: 'A' <= s[k] <= 'Z'
  }

  function Digit(c: char): (d: nat)
    requires 'A' <= c <= 'Z'
    ensures d < 26 && Letter(d) == c
  {
    c as int - 'A' as int
  }

  /** The index of an ID. */
  function IndexOf(s: string): nat
    requires Letters(s)
  {
    var last := Digit(s[|s| - 1]);
    if |s| == 1 then last else 26 * (IndexOf(s[..|s| - 1]) + 1) + last
  }

  lemma {:induction false} RefIsLetters(i: nat)
    ensures Letters(RefOf(i))
  {
    if i >= 26 {
      RefIsLetters(i / 26 - 1);
    }
  }

  lemma RefEnds(i: nat)
    ensures RefOf(i)[|RefOf(i)| - 1] == Letter(i % 26)
    ensures i < 26 ==> |RefOf(i)| == 1
    ensures i >= 26 ==> |RefOf(i)| > 1 && RefOf(i)[..|RefOf(i)| - 1] == RefOf(i / 26 - 1)
  {
    if i >= 26 {
      assert RefOf(i / 26 - 1) != [];
    }
  }

  /** Every index is found again in its ID. */
  lemma {:induction false} IndexOfRef(i: nat)
    ensures Letters(RefOf(i)) && IndexOf(RefOf(i)) == i
  {
    RefIsLetters(i);
    RefEnds(i);
    if i >= 26 {
      IndexOfRef(i / 26 - 1);
    }
  }

  /** Every non-empty string of capital letters is an ID. */
  lemma {:induction false} RefOfIndex(s: string)
    requires Letters(s)
    ensures RefOf(IndexOf(s)) == s
  {
    if |s| > 1 {
      var before := s[..|s| - 1];
      RefOfIndex(before);
      var i := IndexOf(s);
      assert i / 26 - 1 == IndexOf(before) && i % 26 == Digit(s[|s| - 1]);
      assert s == before + [s[|s| - 1]];
    }
  }

  /** Shorter first, then letter by letter. */
  ghost predicate Before(a: string, b: string) {
    || |a| < |b|
    || (|a| == |b| && exists k :: 0 <= k < |a| && a[..k] == b[..k] && a[k] < b[k])
  }

  lemma BeforeExtends(a: string, b: string, c: char, d: char)
    requires Before(a, b)
    ensures Before(a + [c], b + [d])
  {
    if |a| == |b| {
      var k :| 0 <= k < |a| && a[..k] == b[..k] && a[k] < b[k];
      assert (a + [c])[..k] == a[..k] && (b + [d])[..k] == b[..k];
      assert (a + [c])[k] < (b + [d])[k];
    }
  }

  lemma BeforeAtLast(a: string, c: char, d: char)
    requires c < d
    ensures Before(a + [c], a + [d])
  {
    assert (a + [c])[..|a|] == (a + [d])[..|a|];
  }

  lemma AgreeBelow(a: string, b: string, m: nat)
    requires m <= |a| && m <= |b| && a[..m] == b[..m]
    ensures forall k | 0 <= k < m :: a[k] == b[k]
  {
    assert forall k | 0 <= k < m :: a[..m][k] == a[k] && b[..m][k] == b[k];
  }

  lemma BeforeIsOneWay(a: string, b: string)
    requires Before(a, b)
    ensures !Before(b, a) && a != b
  {
    if |a| == |b| {
      var k :| 0 <= k < |a| && a[..k] == b[..k] && a[k] < b[k];
      AgreeBelow(a, b, k);
      forall m | 0 <= m < |b| && b[..m] == a[..m]
        ensures !(b[m] < a[m])
      {
        AgreeBelow(a, b, m);
      }
    }
  }

  lemma {:induction false} RefsIncrease(i: nat, j: nat)
    requires i < j
    ensures Before(RefOf(i), RefOf(j))
  {
    if j >= 26 {
      if i < 26 {
        RefEnds(i);
        RefEnds(j);
      } else if i / 26 < j / 26 {
        RefsIncrease(i / 26 - 1, j / 26 - 1);
        BeforeExtends(RefOf(i / 26 - 1), RefOf(j / 26 - 1), Letter(i % 26), Letter(j % 26));
      } else {
        BeforeAtLast(RefOf(i / 26 - 1), Letter(i % 26), Letter(j % 26));
      }
    } else {
      BeforeAtLast([], Letter(i), Letter(j));
    }
  }

  /** IDs are in the order of their indices, so distinct indices have distinct IDs. */
  lemma {:induction false} RefOrder(i: nat, j: nat)
    ensures i < j <==> Before(RefOf(i), RefOf(j))
    ensures i == j <==> RefOf(i) == RefOf(j)
  {
    if i < j {
      RefsIncrease(i, j);
      BeforeIsOneWay(RefOf(i), RefOf(j));
    } else if j < i {
      RefsIncrease(j, i);
      BeforeIsOneWay(RefOf(j), RefOf(i));
    } else {
      assert !Before(RefOf(i), RefOf(j));
    }
  }

  // ----- the queries of an alert rule

  datatype TimeRange = TimeRange(from: int, to: int)

  datatype AlertQuery<+M> = AlertQuery(refID: string, datasourceUID: string, timeRange: Option<TimeRange>, queryType: string, model: M)

  datatype Error = NilQuery(index: nat) | BadModel(refID: string, message: string)

  /** The ID a query gets at its position. */
  function AssignedId<M>(query: AlertQuery<M>, i: nat): string {
    if query.refID == "" then RefOf(i) else query.refID
  }

  /** Ten minutes back by default, except for expressions. */
  function AssignedRange<M>(query: AlertQuery<M>): Option<TimeRange> {
    if query.timeRange.Some? then query.timeRange
    else if query.datasourceUID != "__expr__" then Some(TimeRange(600, 0))
    else None
  }

  /** One query; toMap is the model through JSON and back, which can fail. */
  function Converted<M, R>(toMap: M -> Result<R, string>, query: Option<AlertQuery<M>>, i: nat): Result<AlertQuery<R>, Error> {
    match query
    case None => Err(NilQuery(i))
    case Some(q) =>
      match toMap(q.model)
      case Err(e) => Err(BadModel(AssignedId(q, i), e))
      case Ok(model) => Ok(AlertQuery(AssignedId(q, i), q.datasourceUID, AssignedRange(q), q.queryType, model))
  }

  /** convertAlertQueries: every query converted, or the first failure. */
  method ConvertAlertQueries<M, R>(toMap: M -> Result<R, string>, queries: seq<Option<AlertQuery<M>>>)
    returns (result: Result<seq<AlertQuery<R>>, Error>)
    ensures match result
            case Ok(converted) =>
              |converted| == |queries| && forall i | 0 <= i < |queries| :: Converted(toMap, queries[i], i) == Ok(converted[i])
            case Err(e) =>
              exists i :: 0 <= i < |queries| && Converted(toMap, queries[i], i) == Err(e)
                          && forall j | 0 <= j < i :: Converted(toMap, queries[j], j).Ok?
  {
    var converted: seq<AlertQuery<R>> := [];
    var i := 0;
    while i < |queries|
      invariant i == |converted| <= |queries|
      invariant forall j | 0 <= j < i :: Converted(toMap, queries[j], j) == Ok(converted[j])
    {
      if queries[i].None? {
        assert Converted(toMap, queries[i], i) == Err(NilQuery(i));
        return Err(NilQuery(i));
      }
      var q := queries[i].value;
      var refID := q.refID;
      if refID == "" {
        refID := IndexToRefID(i);
      }
      var timeRange := None;
      if q.timeRange.Some? {
        timeRange := q.timeRange;
      } else if q.datasourceUID != "__expr__" {
        timeRange := Some(TimeRange(600, 0));
      }
      var model := toMap(q.model);
      if model.Err? {
        assert Converted(toMap, queries[i], i) == Err(BadModel(refID, model.error));
        return Err(BadModel(refID, model.error));
      }
      converted := converted + [AlertQuery(refID, q.datasourceUID, timeRange, q.queryType, model.value)];
      i := i + 1;
    }
    return Ok(converted);
  }

  ghost predicate DistinctIds<M>(queries: seq<AlertQuery<M>>) {
    forall i, j | 0 <= i < j < |queries| :: AssignedId(queries[i], i) != AssignedId(queries[j], j)
  }

  /** What a caller can check: the given IDs differ from each other, and none is a letter that a position without one gets. */
  ghost predicate GivenIdsAreSafe<M>(queries: seq<AlertQuery<M>>) {
    && (forall i, j | 0 <= i < j < |queries| && queries[i].refID != "" && queries[j].refID != "" ::
          queries[i].refID != queries[j].refID)
    && (forall i, j | 0 <= i < |queries| && 0 <= j < |queries| && queries[i].refID != "" && queries[j].refID == "" ::
          Letters(queries[i].refID) ==> IndexOf(queries[i].refID) != j)
  }

  lemma LetterClash(id: string, j: nat)
    ensures id == RefOf(j) <==> Letters(id) && IndexOf(id) == j
  {
    IndexOfRef(j);
    if Letters(id) {
      RefOfIndex(id);
    }
  }

  /** IDs are distinct exactly when the given ones are safe: the assigned ones never clash with each other. */
  lemma IdsDistinctIff<M>(queries: seq<AlertQuery<M>>)
    ensures DistinctIds(queries) <==> GivenIdsAreSafe(queries)
  {
    forall i, j | 0 <= i < |queries| && 0 <= j < |queries|
      ensures queries[i].refID == RefOf(j) <==> Letters(queries[i].refID) && IndexOf(queries[i].refID) == j
      ensures RefOf(i) == RefOf(j) <==> i == j
      ensures RefOf(i) != ""
    {
      LetterClash(queries[i].refID, j);
      RefOrder(i, j);
      RefIsLetters(i);
    }
  }

  /** A given B in front takes the ID of the second position. */
  lemma GivenIdCanClash<M>(first: AlertQuery<M>, second: AlertQuery<M>)
    requires first.refID == "B" && second.refID == ""
    ensures !DistinctIds([first, second])
  {
    var queries := [first, second];
    LetterClash("B", 1);
    assert IndexOf("B") == 1;
    assert AssignedId(queries[0], 0) == "B" == AssignedId(queries[1], 1);
  }

  /**
   Everything given is kept: the datasource, the query type, an ID and a time range that are there. A range that is not
   there is ten minutes up to now, except that expressions have none. Only a missing query or its model can fail.
   */
  lemma ConvertedMeans<M, R>(toMap: M -> Result<R, string>, query: Option<AlertQuery<M>>, i: nat)
    ensures Converted(toMap, query, i).Ok? <==> query.Some? && toMap(query.value.model).Ok?
    ensures match Converted(toMap, query, i)
            case Ok(c) =>
              var q := query.value;
              && c.datasourceUID == q.datasourceUID && c.queryType == q.queryType && Ok(c.model) == toMap(q.model)
              && (q.refID != "" ==> c.refID == q.refID) && (q.refID == "" ==> Letters(c.refID) && IndexOf(c.refID) == i)
              && (q.timeRange.Some? ==> c.timeRange == q.timeRange)
              && (q.timeRange.None? ==> (c.timeRange.None? <==> q.datasourceUID == "__expr__") && c.timeRange in {None, Some(TimeRange(600, 0))})
            case Err(NilQuery(index)) => query.None? && index == i
            case Err(BadModel(id, message)) => query.Some? && toMap(query.value.model) == Err(message)
  {
    IndexOfRef(i);
  }
}
