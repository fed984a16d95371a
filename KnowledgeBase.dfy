/** The electronics knowledge-base matcher of ui_interface.py
    (`mimic_mistral_response`): an ordered first-match keyword search over the
    records of the knowledge file, with a fixed reply when nothing matches. */
module KnowledgeBase {

  import opened Wrappers
  import opened Text

  /** One record of the electronics knowledge file. */
  datatype Record = Record(
    device: string,
    category: string,
    problem: string,
    exampleQueries: seq<string>,
    solution: string)

  /** The reply when no record matches. */
  const DefaultReply: string :=
    "I'm not sure. " + "Please check device connections or describe the issue more specifically."

  /** The per-example test `any(word in query for word in example.lower().split())`,
      for a query that has already been lower-cased. */
  predicate ExampleMatches(query: string, example: string) {
    exists w :: w in Words(Lower(example)) && Contains(query, w)
  }

  /** Some example query of the record passes the per-example test. */
  predicate RecordMatches(query: string, r: Record) {
    exists e :: e in r.exampleQueries && ExampleMatches(query, e)
  }

  /** The answer shown for a matched record. It starts with '*', so it is
      never the default reply, whatever the record holds. */
  function FormatAnswer(r: Record): (s: string)
    ensures |s| > 0 && s[0] == '*'
    ensures s != DefaultReply
  {
    var s := "**Device:** " + r.device + "\n**Category:** " + r.category
             + "\n**Problem:** " + r.problem + "\n**Solution:** " + r.solution;
    assert s[0] == '*';
    assert DefaultReply[0] == 'I';
    s
  }

  /** Index of the first record, in list order, that matches the query. */
  function FirstMatch(query: string, data: seq<Record>): (r: Option<nat>)
    ensures r.Some? ==> r.value < |data| && RecordMatches(query, data[r.value])
    ensures r.Some? ==> forall j :: 0 <= j < r.value ==> !RecordMatches(query, data[j])
    ensures r.None? <==> forall j :: 0 <= j < |data| ==> !RecordMatches(query, data[j])
  {
    if data == [] then None
    else if RecordMatches(query, data[0]) then Some(0)
    else
      match FirstMatch(query, data[1..])
      case None => None
      case Some(i) => Some(i + 1)
  }

  /** What `mimic_mistral_response(query, data)` returns: the formatted
      first record that matches the lower-cased query, or the default reply. */
  function Answer(query: string, data: seq<Record>): (a: string)
    ensures (forall j :: 0 <= j < |data| ==> !RecordMatches(Lower(query), data[j])) ==>
            a == DefaultReply
    ensures forall i :: 0 <= i < |data| && RecordMatches(Lower(query), data[i])
                        && (forall j :: 0 <= j < i ==> !RecordMatches(Lower(query), data[j]))
                        ==> a == FormatAnswer(data[i])
  {
    match FirstMatch(Lower(query), data)
    case None => DefaultReply
    case Some(i) => FormatAnswer(data[i])
  }

  /** A record that matches, with no match before it, is the first match. */
  lemma FirstMatchIs(query: string, data: seq<Record>, i: nat)
    requires i < |data| && RecordMatches(query, data[i])
    requires forall j :: 0 <= j < i ==> !RecordMatches(query, data[j])
    ensures FirstMatch(query, data) == Some(i)
  {
  }

  /** The search itself: the query is lower-cased once, then the records and,
      within each, its example queries are scanned in order; the first example
      that passes the per-example test ends the search. */
  method MimicMistralResponse(query: string, electronicsData: seq<Record>) returns (response: string)
    ensures response == Answer(query, electronicsData)
  {
    var q := Lower(query);
    for i := 0 to |electronicsData|
      invariant forall j :: 0 <= j < i ==> !RecordMatches(q, electronicsData[j])
    {
      var item := electronicsData[i];
      for k := 0 to |item.exampleQueries|
        invariant forall m :: 0 <= m < k ==> !ExampleMatches(q, item.exampleQueries[m])
      {
        if ExampleMatches(q, item.exampleQueries[k]) {
          FirstMatchIs(q, electronicsData, i);
          return FormatAnswer(item);
        }
      }
    }
    return DefaultReply;
  }

  /** The answer depends on the query only through its lower-cased form. */
  lemma AnswerCaseInsensitive(query: string, data: seq<Record>)
    ensures Answer(query, data) == Answer(Lower(query), data)
  {
    LowerIdempotent(query);
  }

  /** When example `k` of record `i` passes the test and no earlier record
      matches, the answer is record `i`'s fields in the fixed layout, whatever
      the later examples of that record and the later records are. */
  lemma AnswerOnMatch(query: string, data: seq<Record>, i: nat, k: nat)
    requires i < |data| && k < |data[i].exampleQueries|
    requires ExampleMatches(Lower(query), data[i].exampleQueries[k])
    requires forall j :: 0 <= j < i ==> !RecordMatches(Lower(query), data[j])
    ensures Answer(query, data) ==
            "**Device:** " + data[i].device + "\n**Category:** " + data[i].category
            + "\n**Problem:** " + data[i].problem + "\n**Solution:** " + data[i].solution
  {
    assert RecordMatches(Lower(query), data[i]) by {
      assert data[i].exampleQueries[k] in data[i].exampleQueries;
    }
    FirstMatchIs(Lower(query), data, i);
  }

  /** The default reply comes out exactly when no record matches: a formatted
      answer starts with '*' and can never equal it. */
  lemma AnswerIsDefaultIffNoMatch(query: string, data: seq<Record>)
    ensures Answer(query, data) == DefaultReply <==>
            forall j :: 0 <= j < |data| ==> !RecordMatches(Lower(query), data[j])
  {
    match FirstMatch(Lower(query), data)
    case None =>
    case Some(i) =>
      assert Answer(query, data) == FormatAnswer(data[i]);
  }

  /** An example passes the test when one of its whitespace-separated words,
      lower-cased, occurs in the query: `example` is leading whitespace
      `pre`, the word `w`, and a `rest` that starts at whitespace or is empty. */
  lemma ExampleMatchesOnWord(query: string, pre: string, w: string, rest: string)
    requires AllSpace(pre)
    requires w != [] && NoSpace(w)
    requires rest == [] || IsSpace(rest[0])
    requires Contains(query, Lower(w))
    ensures ExampleMatches(query, pre + w + rest)
  {
    LowerAppend(pre + w, rest);
    LowerAppend(pre, w);
    LowerKeepsSpace(pre);
    LowerKeepsSpaceAt(w);
    LowerKeepsSpaceAt(rest);
    WordsOfPadded(Lower(pre), Lower(w), Lower(rest));
    assert Lower(w) in Words(Lower(pre + w + rest));
  }

  /** A record whose example queries are all empty or whitespace has no words
      to look for, so it never matches. */
  lemma BlankExamplesNeverMatch(query: string, r: Record)
    requires forall k :: 0 <= k < |r.exampleQueries| ==> AllSpace(r.exampleQueries[k])
    ensures !RecordMatches(query, r)
  {
    forall e | e in r.exampleQueries ensures !ExampleMatches(query, e) {
      LowerKeepsSpace(e);
      WordsEmptyIffBlank(Lower(e));
    }
  }

  /** Once a record has matched, the records after it can be replaced by
      anything without changing the answer. */
  lemma AnswerIgnoresLaterRecords(query: string, data: seq<Record>, later: seq<Record>)
    requires FirstMatch(Lower(query), data).Some?
    ensures Answer(query, data[..FirstMatch(Lower(query), data).value + 1] + later) ==
            Answer(query, data)
  {
    var q := Lower(query);
    var i := FirstMatch(q, data).value;
    var data' := data[..i + 1] + later;
    assert forall j :: 0 <= j <= i ==> data'[j] == data[j];
    FirstMatchIs(q, data', i);
  }

  /** Appending records to the knowledge file never changes an answer that
      already came from a match. */
  lemma AnswerStableUnderAppend(query: string, data: seq<Record>, extra: seq<Record>)
    requires Answer(query, data) != DefaultReply
    ensures Answer(query, data + extra) == Answer(query, data)
  {
    AnswerIsDefaultIffNoMatch(query, data);
    var q := Lower(query);
    var i := FirstMatch(q, data).value;
    assert forall j :: 0 <= j <= i ==> (data + extra)[j] == data[j];
    FirstMatchIs(q, data + extra, i);
  }
}
