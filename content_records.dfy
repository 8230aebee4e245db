/**
 * The records a content test keeps about its problem, and the pure
 * reconciliation rules over them: the structural and hash staleness checks,
 * the hash reassignment, the hash-based rematch, the rebuilding of the answer
 * dictionary from the records, and the write-back of a dictionary into them.
 */
module ContentRecords {
  import opened Wrappers
  import opened XmlTree
  import opened XmlHash

  /** One input field of a responder: its `id`, `response_id` and `answer_id` attributes. */
  datatype InputField = InputField(id: string, responseId: nat, answerId: nat)

  /** One response of the current problem: its id, its XML and its input fields in document order. */
  datatype Responder = Responder(id: string, xml: Element, inputFields: seq<InputField>)

  /** An `Input` row. */
  datatype InputRecord = InputRecord(stringId: string, responseIndex: nat, inputIndex: nat, answer: string)

  /** A `Response` row with its `Input` rows, kept in `input_index` order. */
  datatype ResponseRecord = ResponseRecord(stringId: string, xmlHash: int, inputs: seq<InputRecord>)

  /** The `KeyError` raised when a record's id names no responder, or an answer is missing. */
  datatype LookupError = KeyError(key: string)

  // ---------------------------------------------------------------------------
  // Looking up responders and creating records

  /** The position of the last responder with the given id: the one `responders_by_id` keeps. */
  function LastWithId(problem: seq<Responder>, id: string): (r: Option<nat>)
    ensures r.None? <==> forall j :: 0 <= j < |problem| ==> problem[j].id != id
    ensures r.Some? ==> r.value < |problem| && problem[r.value].id == id &&
                        forall k :: r.value < k < |problem| ==> problem[k].id != id
  {
    if problem == [] then None
    else if problem[|problem| - 1].id == id then Some(|problem| - 1)
    else LastWithId(problem[..|problem| - 1], id)
  }

  /** `responders_by_id[id]`: the responder with that id, the last one when ids repeat. */
  function FindResponder(problem: seq<Responder>, id: string): (r: Option<Responder>)
    ensures r.None? <==> forall j :: 0 <= j < |problem| ==> problem[j].id != id
    ensures r.Some? ==> r.value.id == id && r.value == problem[LastWithId(problem, id).value]
  {
    match LastWithId(problem, id)
    case None => None
    case Some(j) => Some(problem[j])
  }

  /** The `Input` row `create_children` makes for a field: the answer comes from `answers`, or is blank. */
  function NewInput(f: InputField, answers: map<string, string>): InputRecord
  {
    InputRecord(f.id, f.responseId, f.answerId, if f.id in answers then answers[f.id] else "")
  }

  /** The rows `_create_child` makes for a responder: the response with its hash, and one input per field. */
  function NewRecord(p: Responder, answers: map<string, string>, hasher: Element -> int): ResponseRecord
  {
    ResponseRecord(p.id, HashXml(hasher, p.xml),
                   seq(|p.inputFields|, k requires 0 <= k < |p.inputFields| => NewInput(p.inputFields[k], answers)))
  }

  /** Every answer of a record is blank. */
  predicate AllBlank(rec: ResponseRecord)
  {
    forall k :: 0 <= k < |rec.inputs| ==> rec.inputs[k].answer == ""
  }

  /** A record created without a dictionary mirrors its responder field by field and has only blank answers. */
  lemma NewRecordShape(p: Responder, hasher: Element -> int)
    ensures var rec := NewRecord(p, map[], hasher);
      && rec.stringId == p.id && rec.xmlHash == HashXml(hasher, p.xml)
      && |rec.inputs| == |p.inputFields| && AllBlank(rec)
      && forall k :: 0 <= k < |rec.inputs| ==>
           rec.inputs[k] == InputRecord(p.inputFields[k].id, p.inputFields[k].responseId, p.inputFields[k].answerId, "")
  {
  }

  /**
   * `Response.create_children(responder, response_dict)`: one input row per
   * field, in field order, with the answer taken from the dictionary or blank.
   */
  method CreateInputs(p: Responder, answers: map<string, string>) returns (inputs: seq<InputRecord>)
    ensures |inputs| == |p.inputFields|
    ensures forall k :: 0 <= k < |inputs| ==>
      && inputs[k].stringId == p.inputFields[k].id
      && inputs[k].responseIndex == p.inputFields[k].responseId
      && inputs[k].inputIndex == p.inputFields[k].answerId
      && inputs[k].answer == (if p.inputFields[k].id in answers then answers[p.inputFields[k].id] else "")
  {
    inputs := [];
    for k := 0 to |p.inputFields|
      invariant |inputs| == k
      invariant forall m :: 0 <= m < k ==> inputs[m] == NewInput(p.inputFields[m], answers)
    {
      var f := p.inputFields[k];
      var answer := if f.id in answers then answers[f.id] else "";
      inputs := inputs + [InputRecord(f.id, f.responseId, f.answerId, answer)];
    }
  }

  // ---------------------------------------------------------------------------
  // Response.rematch

  /** The input row after `Response.rematch` re-syncs it with a field: new ids, same index and answer. */
  function ResyncInput(x: InputRecord, f: InputField): InputRecord
  {
    x.(responseIndex := f.responseId, stringId := f.id)
  }

  /**
   * `Response.rematch(responder)`: nothing changes when the ids already agree;
   * otherwise the response takes the responder's id and the inputs, zipped in
   * `input_index` order with the fields, take the fields' ids.
   */
  function Resynced(rec: ResponseRecord, p: Responder): ResponseRecord
  {
    if rec.stringId == p.id then rec
    else
      rec.(stringId := p.id,
           inputs := seq(|rec.inputs|, k requires 0 <= k < |rec.inputs| =>
                           if k < |p.inputFields| then ResyncInput(rec.inputs[k], p.inputFields[k]) else rec.inputs[k]))
  }

  /**
   * A re-synced record keeps its hash, its number of inputs, every input's
   * answer and input index; it carries the responder's id, and the inputs the
   * zip reaches carry their field's ids unless the ids already agreed.
   */
  lemma ResyncedKeepsAnswers(rec: ResponseRecord, p: Responder)
    ensures var r := Resynced(rec, p);
      && r.stringId == p.id && r.xmlHash == rec.xmlHash && |r.inputs| == |rec.inputs|
      && (forall k :: 0 <= k < |r.inputs| ==>
            r.inputs[k].answer == rec.inputs[k].answer && r.inputs[k].inputIndex == rec.inputs[k].inputIndex)
      && (rec.stringId != p.id ==> forall k :: 0 <= k < |r.inputs| && k < |p.inputFields| ==>
            r.inputs[k].stringId == p.inputFields[k].id && r.inputs[k].responseIndex == p.inputFields[k].responseId)
      && (rec.stringId == p.id ==> r == rec)
  {
  }

  /** `_create_child(responder, response_dict)`: the response row and, through `create_children`, its input rows. */
  method NewResponse(p: Responder, answers: map<string, string>, hasher: Element -> int) returns (rec: ResponseRecord)
    ensures rec == NewRecord(p, answers, hasher)
  {
    var inputs := CreateInputs(p, answers);
    rec := ResponseRecord(p.id, HashXml(hasher, p.xml), inputs);
    assert inputs == NewRecord(p, answers, hasher).inputs;
  }

  /** `Response.rematch` as the source runs it: an early return, else a loop over the zipped fields and inputs. */
  method RematchResponse(rec: ResponseRecord, p: Responder) returns (r: ResponseRecord)
    ensures r == Resynced(rec, p)
  {
    if rec.stringId == p.id {
      return rec;
    }
    var inputs := rec.inputs;
    var k := 0;
    while k < |p.inputFields| && k < |inputs|
      invariant 0 <= k <= |inputs| && k <= |p.inputFields| && |inputs| == |rec.inputs|
      invariant forall m :: 0 <= m < |inputs| ==>
        inputs[m] == if m < k then ResyncInput(rec.inputs[m], p.inputFields[m]) else rec.inputs[m]
    {
      inputs := inputs[k := ResyncInput(inputs[k], p.inputFields[k])];
      k := k + 1;
    }
    r := rec.(stringId := p.id, inputs := inputs);
    assert r.inputs == Resynced(rec, p).inputs;
  }

  // ---------------------------------------------------------------------------
  // Structural staleness: _still_matches / Response.still_matches

  /** `Response.still_matches`: its id still names a responder (no `KeyError`) with as many fields as it has inputs. */
  predicate RecordMatches(rec: ResponseRecord, problem: seq<Responder>)
  {
    match FindResponder(problem, rec.stringId)
    case None => false
    case Some(p) => |p.inputFields| == |rec.inputs|
  }

  /** `_still_matches`: as many records as responders, and every record still matches. */
  predicate StructureMatches(records: seq<ResponseRecord>, problem: seq<Responder>)
  {
    |records| == |problem| && forall k :: 0 <= k < |records| ==> RecordMatches(records[k], problem)
  }

  // ---------------------------------------------------------------------------
  // Hash staleness: _still_hashes_match / Response.still_hashes_match

  /** `Response.still_hashes_match`: the id names a responder whose fresh hash equals the stored one. */
  predicate HashCurrent(rec: ResponseRecord, problem: seq<Responder>, hasher: Element -> int)
  {
    match FindResponder(problem, rec.stringId)
    case None => false
    case Some(p) => HashXml(hasher, p.xml) == rec.xmlHash
  }

  /** The first record whose hash is not current: where the walk of `_still_hashes_match` stops. */
  function FirstStale(records: seq<ResponseRecord>, problem: seq<Responder>, hasher: Element -> int): (f: nat)
    ensures f <= |records|
    ensures forall k :: 0 <= k < f ==> HashCurrent(records[k], problem, hasher)
    ensures f < |records| ==> !HashCurrent(records[f], problem, hasher)
  {
    if records == [] || !HashCurrent(records[0], problem, hasher) then 0
    else
      var f := FirstStale(records[1..], problem, hasher);
      assert forall k :: 1 <= k < f + 1 ==> records[k] == records[1..][k - 1];
      1 + f
  }

  /**
   * `_still_hashes_match`: true when every record's hash is current; at the
   * first record that is not, false if its responder hashes differently and
   * `KeyError` if its id names no responder.
   */
  function HashesMatch(records: seq<ResponseRecord>, problem: seq<Responder>, hasher: Element -> int): Result<bool, LookupError>
  {
    var f := FirstStale(records, problem, hasher);
    if f == |records| then Ok(true)
    else if FindResponder(problem, records[f].stringId).None? then Err(KeyError(records[f].stringId))
    else Ok(false)
  }

  /** `_still_hashes_match` is true exactly when every record's hash is current. */
  lemma HashesMatchExact(records: seq<ResponseRecord>, problem: seq<Responder>, hasher: Element -> int)
    ensures HashesMatch(records, problem, hasher) == Ok(true) <==>
            forall k :: 0 <= k < |records| ==> HashCurrent(records[k], problem, hasher)
  {
  }

  /** Once `_still_matches` holds, `_still_hashes_match` cannot raise. */
  lemma StructureMatchesNoKeyError(records: seq<ResponseRecord>, problem: seq<Responder>, hasher: Element -> int)
    requires forall k :: 0 <= k < |records| ==> RecordMatches(records[k], problem)
    ensures HashesMatch(records, problem, hasher).Ok?
  {
    var f := FirstStale(records, problem, hasher);
    if f < |records| {
      assert RecordMatches(records[f], problem);
    }
  }

  // ---------------------------------------------------------------------------
  // _reassign_hashes / Response.reassign_hashes

  /** The first record whose id names no responder: where `_reassign_hashes` raises `KeyError`. */
  function FirstUnresolved(records: seq<ResponseRecord>, problem: seq<Responder>): (f: nat)
    ensures f <= |records|
    ensures forall k :: 0 <= k < f ==> FindResponder(problem, records[k].stringId).Some?
    ensures f < |records| ==> FindResponder(problem, records[f].stringId).None?
  {
    if records == [] || FindResponder(problem, records[0].stringId).None? then 0
    else
      var f := FirstUnresolved(records[1..], problem);
      assert forall k :: 1 <= k < f + 1 ==> records[k] == records[1..][k - 1];
      1 + f
  }

  /** `Response.reassign_hashes`: the record takes the fresh hash of its responder. */
  function Rehashed(rec: ResponseRecord, problem: seq<Responder>, hasher: Element -> int): ResponseRecord
    requires FindResponder(problem, rec.stringId).Some?
  {
    rec.(xmlHash := HashXml(hasher, FindResponder(problem, rec.stringId).value.xml))
  }

  /**
   * `_reassign_hashes`: the records before the first unresolved one take
   * their responder's fresh hash, that one raises `KeyError`, and it and the
   * later records stay as they were.  The flag is false when it raised.
   */
  function Reassigned(records: seq<ResponseRecord>, problem: seq<Responder>, hasher: Element -> int): (seq<ResponseRecord>, bool)
  {
    var f := FirstUnresolved(records, problem);
    (seq(|records|, k requires 0 <= k < |records| => if k < f then Rehashed(records[k], problem, hasher) else records[k]),
     f == |records|)
  }

  /** The loop of `_reassign_hashes`; it stops at the first `KeyError`. */
  method ReassignAll(records: seq<ResponseRecord>, problem: seq<Responder>, hasher: Element -> int) returns (after: seq<ResponseRecord>, ok: bool)
    ensures (after, ok) == Reassigned(records, problem, hasher)
  {
    after := records;
    for k := 0 to |records|
      invariant |after| == |records|
      invariant forall m :: 0 <= m < k ==> FindResponder(problem, records[m].stringId).Some?
      invariant forall m :: 0 <= m < |records| ==> after[m] == if m < k then Rehashed(records[m], problem, hasher) else records[m]
    {
      match FindResponder(problem, records[k].stringId)
      case None =>
        assert FirstUnresolved(records, problem) == k;
        assert after == Reassigned(records, problem, hasher).0;
        return after, false;
      case Some(p) =>
        after := after[k := records[k].(xmlHash := HashXml(hasher, p.xml))];
    }
    assert after == Reassigned(records, problem, hasher).0;
    ok := true;
  }

  /**
   * When the structure still matches, reassigning hashes raises nothing,
   * creates and deletes no record, changes no id and no input, keeps the
   * structure matching, and afterwards every hash matches.
   */
  lemma ReassignedRefreshesHashes(records: seq<ResponseRecord>, problem: seq<Responder>, hasher: Element -> int)
    requires forall k :: 0 <= k < |records| ==> RecordMatches(records[k], problem)
    ensures var (after, ok) := Reassigned(records, problem, hasher);
      && ok && |after| == |records|
      && (forall k :: 0 <= k < |records| ==>
            after[k].stringId == records[k].stringId && after[k].inputs == records[k].inputs)
      && (forall k :: 0 <= k < |after| ==> RecordMatches(after[k], problem))
      && HashesMatch(after, problem, hasher) == Ok(true)
  {
    var after := Reassigned(records, problem, hasher).0;
    assert forall k :: 0 <= k < |after| ==> HashCurrent(after[k], problem, hasher);
    HashesMatchExact(after, problem, hasher);
  }

  // ---------------------------------------------------------------------------
  // _remake_dict_from_children

  /** The dictionary `d` after `d[input.string_id] = input.answer` for each input in order: later inputs win. */
  function AddAnswers(d: map<string, string>, inputs: seq<InputRecord>): map<string, string>
  {
    if inputs == [] then d
    else AddAnswers(d, inputs[..|inputs| - 1])[inputs[|inputs| - 1].stringId := inputs[|inputs| - 1].answer]
  }

  /** `_remake_dict_from_children`: the answers of every record's inputs, record by record. */
  function RemakeDict(records: seq<ResponseRecord>): map<string, string>
  {
    if records == [] then map[] else AddAnswers(RemakeDict(records[..|records| - 1]), records[|records| - 1].inputs)
  }

  /** The nested loop of `_remake_dict_from_children`. */
  method CollectAnswers(records: seq<ResponseRecord>) returns (d: map<string, string>)
    ensures d == RemakeDict(records)
  {
    d := map[];
    for i := 0 to |records|
      invariant d == RemakeDict(records[..i])
    {
      assert records[..i + 1][..i] == records[..i];
      var inputs := records[i].inputs;
      ghost var before := d;
      for k := 0 to |inputs|
        invariant d == AddAnswers(before, inputs[..k])
      {
        assert inputs[..k + 1][..k] == inputs[..k];
        d := d[inputs[k].stringId := inputs[k].answer];
      }
      assert inputs[..|inputs|] == inputs;
    }
    assert records[..|records|] == records;
  }

  /** The input rows of all records, record by record, each record's inputs in order. */
  function AllInputs(records: seq<ResponseRecord>): seq<InputRecord>
  {
    if records == [] then [] else AllInputs(records[..|records| - 1]) + records[|records| - 1].inputs
  }

  /** Filling a dictionary with two runs of inputs is filling it with their concatenation. */
  lemma {:induction false} AddAnswersAppend(d: map<string, string>, a: seq<InputRecord>, b: seq<InputRecord>)
    ensures AddAnswers(AddAnswers(d, a), b) == AddAnswers(d, a + b)
  {
    if b == [] {
      assert a + b == a;
    } else {
      var ab := a + b;
      var last := b[|b| - 1];
      assert ab[..|ab| - 1] == a + b[..|b| - 1];
      assert ab[|ab| - 1] == last;
      AddAnswersAppend(d, a, b[..|b| - 1]);
      calc {
        AddAnswers(AddAnswers(d, a), b);
        AddAnswers(AddAnswers(d, a), b[..|b| - 1])[last.stringId := last.answer];
        AddAnswers(d, a + b[..|b| - 1])[last.stringId := last.answer];
        AddAnswers(d, ab);
      }
    }
  }

  /** The rebuilt dictionary is the dictionary of all input rows taken in one run. */
  lemma {:induction false} RemakeDictFlat(records: seq<ResponseRecord>)
    ensures RemakeDict(records) == AddAnswers(map[], AllInputs(records))
  {
    if records != [] {
      var init := records[..|records| - 1];
      RemakeDictFlat(init);
      AddAnswersAppend(map[], AllInputs(init), records[|records| - 1].inputs);
    }
  }

  /** The inputs that make up the records are exactly the rows of the records. */
  lemma {:induction false} AllInputsExact(records: seq<ResponseRecord>)
    ensures forall x :: x in AllInputs(records) <==> exists r :: r in records && x in r.inputs
  {
    if records != [] {
      var init := records[..|records| - 1];
      AllInputsExact(init);
      assert records == init + [records[|records| - 1]];
    }
  }

  /**
   * A dictionary filled from inputs has exactly the input ids as keys, and
   * each id maps to the answer of the last input with that id.
   */
  lemma {:induction false} AddAnswersExact(inputs: seq<InputRecord>)
    ensures forall id :: id in AddAnswers(map[], inputs) <==> exists k :: 0 <= k < |inputs| && inputs[k].stringId == id
    ensures forall k :: 0 <= k < |inputs| && (forall m :: k < m < |inputs| ==> inputs[m].stringId != inputs[k].stringId) ==>
              AddAnswers(map[], inputs)[inputs[k].stringId] == inputs[k].answer
  {
    if inputs != [] {
      var init := inputs[..|inputs| - 1];
      AddAnswersExact(init);
      assert forall k :: 0 <= k < |init| ==> init[k] == inputs[k];
    }
  }

  // ---------------------------------------------------------------------------
  // _update_dictionary

  /** The first input whose id is missing from the dictionary. */
  function FirstMissing(inputs: seq<InputRecord>, d: map<string, string>): (f: nat)
    ensures f <= |inputs|
    ensures forall k :: 0 <= k < f ==> inputs[k].stringId in d
    ensures f < |inputs| ==> inputs[f].stringId !in d
  {
    if inputs == [] || inputs[0].stringId !in d then 0
    else
      var f := FirstMissing(inputs[1..], d);
      assert forall k :: 1 <= k < f + 1 ==> inputs[k] == inputs[1..][k - 1];
      1 + f
  }

  /** `input_model.answer = new_dict[input_model.string_id]`. */
  function WithAnswer(x: InputRecord, d: map<string, string>): InputRecord
    requires x.stringId in d
  {
    x.(answer := d[x.stringId])
  }

  /**
   * `_update_dictionary` over one record's inputs: the inputs before the first
   * missing id take their answer, that one raises `KeyError`, and it and the
   * later ones keep theirs.  The flag is false when it raised.
   */
  function UpdateInputs(inputs: seq<InputRecord>, d: map<string, string>): (seq<InputRecord>, bool)
  {
    var f := FirstMissing(inputs, d);
    (seq(|inputs|, k requires 0 <= k < |inputs| => if k < f then WithAnswer(inputs[k], d) else inputs[k]), f == |inputs|)
  }

  /** The first record with an input whose id is missing from the dictionary. */
  function FirstFailing(records: seq<ResponseRecord>, d: map<string, string>): (f: nat)
    ensures f <= |records|
    ensures forall k :: 0 <= k < f ==> UpdateInputs(records[k].inputs, d).1
    ensures f < |records| ==> !UpdateInputs(records[f].inputs, d).1
  {
    if records == [] || !UpdateInputs(records[0].inputs, d).1 then 0
    else
      var f := FirstFailing(records[1..], d);
      assert forall k :: 1 <= k < f + 1 ==> records[k] == records[1..][k - 1];
      1 + f
  }

  /**
   * `_update_dictionary` over all records in order: the records up to the
   * first failing one are updated (that one up to its missing id), the later
   * ones are untouched.  The flag is false when `KeyError` was raised.
   */
  function UpdateAnswers(records: seq<ResponseRecord>, d: map<string, string>): (seq<ResponseRecord>, bool)
  {
    var f := FirstFailing(records, d);
    (seq(|records|, k requires 0 <= k < |records| =>
           if k <= f then records[k].(inputs := UpdateInputs(records[k].inputs, d).0) else records[k]),
     f == |records|)
  }

  /** The loop of `_update_dictionary` over one record's inputs. */
  method UpdateInputAnswers(inputs: seq<InputRecord>, d: map<string, string>) returns (after: seq<InputRecord>, ok: bool)
    ensures (after, ok) == UpdateInputs(inputs, d)
  {
    after := inputs;
    for k := 0 to |inputs|
      invariant |after| == |inputs|
      invariant forall m :: 0 <= m < k ==> inputs[m].stringId in d
      invariant forall m :: 0 <= m < |inputs| ==> after[m] == if m < k then WithAnswer(inputs[m], d) else inputs[m]
    {
      if inputs[k].stringId !in d {
        assert FirstMissing(inputs, d) == k;
        assert after == UpdateInputs(inputs, d).0;
        return after, false;
      }
      after := after[k := inputs[k].(answer := d[inputs[k].stringId])];
    }
    assert after == UpdateInputs(inputs, d).0;
    ok := true;
  }

  /** The loop of `_update_dictionary` over all records; it stops at the first `KeyError`. */
  method UpdateAllAnswers(records: seq<ResponseRecord>, d: map<string, string>) returns (after: seq<ResponseRecord>, ok: bool)
    ensures (after, ok) == UpdateAnswers(records, d)
  {
    after := records;
    for i := 0 to |records|
      invariant |after| == |records|
      invariant forall m :: 0 <= m < i ==> UpdateInputs(records[m].inputs, d).1
      invariant forall m :: 0 <= m < |records| ==>
        after[m] == if m < i then records[m].(inputs := UpdateInputs(records[m].inputs, d).0) else records[m]
    {
      var inputs, inputsOk := UpdateInputAnswers(records[i].inputs, d);
      after := after[i := records[i].(inputs := inputs)];
      if !inputsOk {
        assert FirstFailing(records, d) == i;
        assert after == UpdateAnswers(records, d).0;
        return after, false;
      }
    }
    assert after == UpdateAnswers(records, d).0;
    ok := true;
  }

  /** Every input of the records has its id in the dictionary. */
  predicate Covers(records: seq<ResponseRecord>, d: map<string, string>)
  {
    forall r, x :: r in records && x in r.inputs ==> x.stringId in d
  }

  lemma UpdateInputsExact(inputs: seq<InputRecord>, d: map<string, string>)
    ensures var (after, ok) := UpdateInputs(inputs, d);
      && |after| == |inputs|
      && (ok <==> forall x :: x in inputs ==> x.stringId in d)
      && (forall k :: 0 <= k < |inputs| ==> after[k].(answer := inputs[k].answer) == inputs[k])
      && (ok ==> forall k :: 0 <= k < |inputs| ==> after[k].answer == d[inputs[k].stringId])
  {
    var f := FirstMissing(inputs, d);
    if f < |inputs| {
      assert inputs[f] in inputs;
    }
  }

  /**
   * `_update_dictionary` raises exactly when some input's id is missing from
   * the dictionary; it only ever changes answers, and when it succeeds every
   * answer is the dictionary's value for that input's id.
   */
  lemma UpdateAnswersExact(records: seq<ResponseRecord>, d: map<string, string>)
    ensures var (after, ok) := UpdateAnswers(records, d);
      && |after| == |records|
      && (ok <==> Covers(records, d))
      && (forall k :: 0 <= k < |records| ==>
            after[k].stringId == records[k].stringId && after[k].xmlHash == records[k].xmlHash &&
            |after[k].inputs| == |records[k].inputs| &&
            forall m :: 0 <= m < |records[k].inputs| ==> after[k].inputs[m].(answer := records[k].inputs[m].answer) == records[k].inputs[m])
      && (ok ==> forall k, m :: 0 <= k < |records| && 0 <= m < |records[k].inputs| ==>
            after[k].inputs[m].answer == d[records[k].inputs[m].stringId])
  {
    forall k | 0 <= k < |records| {
      UpdateInputsExact(records[k].inputs, d);
    }
    var f := FirstFailing(records, d);
    if f < |records| {
      assert records[f] in records;
    } else {
      forall r, x | r in records && x in r.inputs ensures x.stringId in d {
        var k :| 0 <= k < |records| && records[k] == r;
      }
    }
  }

  /** The dictionary rebuilt from the records covers every input, so writing it back cannot raise. */
  lemma RemakeDictCovers(records: seq<ResponseRecord>)
    ensures Covers(records, RemakeDict(records))
    ensures UpdateAnswers(records, RemakeDict(records)).1
  {
    RemakeDictFlat(records);
    AllInputsExact(records);
    AddAnswersExact(AllInputs(records));
    forall r, x | r in records && x in r.inputs
      ensures x.stringId in RemakeDict(records)
    {
      assert x in AllInputs(records);
      var k :| 0 <= k < |AllInputs(records)| && AllInputs(records)[k] == x;
    }
    UpdateAnswersExact(records, RemakeDict(records));
  }

  /** No two input rows share an id. */
  predicate DistinctInputIds(records: seq<ResponseRecord>)
  {
    var xs := AllInputs(records);
    forall a, b :: 0 <= a < b < |xs| ==> xs[a].stringId != xs[b].stringId
  }

  /** A dictionary that already holds every input's own answer changes nothing. */
  lemma UpdateAnswersIdentity(records: seq<ResponseRecord>, d: map<string, string>)
    requires forall r, x :: r in records && x in r.inputs ==> x.stringId in d && d[x.stringId] == x.answer
    ensures UpdateAnswers(records, d) == (records, true)
  {
    UpdateAnswersExact(records, d);
    var after := UpdateAnswers(records, d).0;
    forall k | 0 <= k < |records| ensures after[k] == records[k] {
      assert records[k] in records;
      assert after[k].inputs == records[k].inputs;
    }
    assert after == records;
  }

  /** With distinct input ids, writing back the rebuilt dictionary changes no answer. */
  lemma RemakeDictRoundTrip(records: seq<ResponseRecord>)
    requires DistinctInputIds(records)
    ensures UpdateAnswers(records, RemakeDict(records)) == (records, true)
  {
    var xs := AllInputs(records);
    var d := RemakeDict(records);
    RemakeDictFlat(records);
    AllInputsExact(records);
    AddAnswersExact(xs);
    forall r, x | r in records && x in r.inputs
      ensures x.stringId in d && d[x.stringId] == x.answer
    {
      assert x in xs;
      var k :| 0 <= k < |xs| && xs[k] == x;
      assert forall m :: k < m < |xs| ==> xs[m].stringId != xs[k].stringId;
    }
    UpdateAnswersIdentity(records, d);
  }

  // ---------------------------------------------------------------------------
  // _rematch

  /** The fresh hash of each responder, in document order. */
  function Hashes(problem: seq<Responder>, hasher: Element -> int): (hs: seq<int>)
    ensures |hs| == |problem|
    ensures forall j :: 0 <= j < |problem| ==> hs[j] == HashXml(hasher, problem[j].xml)
  {
    seq(|problem|, j requires 0 <= j < |problem| => HashXml(hasher, problem[j].xml))
  }

  /**
   * `model_dict`: each stored hash maps to the last record carrying it, since
   * filling the dictionary in record order overwrites earlier duplicates.
   */
  function HashIndex(records: seq<ResponseRecord>): (idx: map<int, nat>)
    ensures forall i :: 0 <= i < |records| ==> records[i].xmlHash in idx
    ensures forall h :: h in idx ==>
      idx[h] < |records| && records[idx[h]].xmlHash == h &&
      forall k :: idx[h] < k < |records| ==> records[k].xmlHash != h
  {
    IndexUpToExact(records, |records|);
    IndexUpTo(records, |records|)
  }

  /** `model_dict` after the first `n` records. */
  function IndexUpTo(records: seq<ResponseRecord>, n: nat): map<int, nat>
    requires n <= |records|
  {
    if n == 0 then map[] else IndexUpTo(records, n - 1)[records[n - 1].xmlHash := n - 1]
  }

  /** After the first `n` records, every hash among them maps to the last of those records carrying it. */
  lemma {:induction false} IndexUpToExact(records: seq<ResponseRecord>, n: nat)
    requires n <= |records|
    ensures forall i :: 0 <= i < n ==> records[i].xmlHash in IndexUpTo(records, n)
    ensures forall h :: h in IndexUpTo(records, n) ==>
      IndexUpTo(records, n)[h] < n && records[IndexUpTo(records, n)[h]].xmlHash == h &&
      forall k :: IndexUpTo(records, n)[h] < k < n ==> records[k].xmlHash != h
  {
    if n > 0 {
      IndexUpToExact(records, n - 1);
    }
  }

  /** The first responder with hash `h`, if any. */
  function FirstIndex(hs: seq<int>, h: int): (r: Option<nat>)
    ensures r.None? <==> h !in hs
    ensures r.Some? ==> r.value < |hs| && hs[r.value] == h && forall k :: 0 <= k < r.value ==> hs[k] != h
  {
    if hs == [] then None
    else if hs[0] == h then Some(0)
    else
      match FirstIndex(hs[1..], h)
      case None => None
      case Some(j) => Some(j + 1)
  }

  /** The first responder with hash `h` comes before position `j`. */
  predicate Claimed(hs: seq<int>, h: int, j: nat)
  {
    match FirstIndex(hs, h)
    case None => false
    case Some(f) => f < j
  }

  /** A record survives `_rematch`: it is the last with its hash, and some responder has that hash. */
  predicate Survives(records: seq<ResponseRecord>, hs: seq<int>, i: nat)
    requires i < |records|
  {
    (forall k :: i < k < |records| ==> records[k].xmlHash != records[i].xmlHash) && records[i].xmlHash in hs
  }

  /** Responder `j` consumes a record: some record has its hash, and no earlier responder had it. */
  predicate Consumes(records: seq<ResponseRecord>, hs: seq<int>, j: nat)
    requires j < |hs|
  {
    (exists i :: 0 <= i < |records| && records[i].xmlHash == hs[j]) && hs[j] !in hs[..j]
  }

  /** A responder is the first with its hash exactly when it is the first responder `FirstIndex` finds for it. */
  lemma FirstWithHash(hs: seq<int>, j: nat)
    requires j < |hs|
    ensures hs[j] !in hs[..j] <==> FirstIndex(hs, hs[j]) == Some(j)
    ensures hs[j] in hs[..j] <==> Claimed(hs, hs[j], j)
  {
    var f := FirstIndex(hs, hs[j]).value;
    if f < j {
      assert hs[..j][f] == hs[j];
    }
  }

  /**
   * Record `i` has been taken by one of the first `j` responders: it is the
   * last with its hash, and the first responder with that hash is before `j`.
   */
  predicate ConsumedBefore(records: seq<ResponseRecord>, hs: seq<int>, i: nat, j: nat)
    requires i < |records|
  {
    (forall k :: i < k < |records| ==> records[k].xmlHash != records[i].xmlHash) && Claimed(hs, records[i].xmlHash, j)
  }

  /** One more responder claims at most the records with its own hash, and only when it is the first with it. */
  lemma ConsumedStep(records: seq<ResponseRecord>, hs: seq<int>, j: nat)
    requires j < |hs|
    ensures forall i :: 0 <= i < |records| ==>
      (ConsumedBefore(records, hs, i, j + 1) <==>
       ConsumedBefore(records, hs, i, j) ||
       (records[i].xmlHash == hs[j] && FirstIndex(hs, hs[j]) == Some(j) &&
        forall k :: i < k < |records| ==> records[k].xmlHash != records[i].xmlHash))
  {
  }

  /** Only one record is the last with its hash. */
  lemma LastWithHashUnique(records: seq<ResponseRecord>, i: nat)
    requires i < |records| && forall k :: i < k < |records| ==> records[k].xmlHash != records[i].xmlHash
    ensures forall i2 :: 0 <= i2 < |records| && i2 != i && records[i2].xmlHash == records[i].xmlHash ==>
              exists k :: i2 < k < |records| && records[k].xmlHash == records[i2].xmlHash
  {
    forall i2 | 0 <= i2 < |records| && i2 != i && records[i2].xmlHash == records[i].xmlHash
      ensures exists k :: i2 < k < |records| && records[k].xmlHash == records[i2].xmlHash
    {
      assert i2 < i;
    }
  }

  /** A surviving record after `_rematch`: re-synced with the first responder carrying its hash. */
  function KeptRecord(records: seq<ResponseRecord>, problem: seq<Responder>, hs: seq<int>, i: nat): ResponseRecord
    requires |hs| == |problem| && i < |records| && Survives(records, hs, i)
  {
    Resynced(records[i], problem[FirstIndex(hs, records[i].xmlHash).value])
  }

  /** The indices, among the first `m` records, of those that survive, in order. */
  function KeptIndices(records: seq<ResponseRecord>, hs: seq<int>, m: nat): seq<nat>
    requires m <= |records|
  {
    if m == 0 then [] else KeptIndices(records, hs, m - 1) + (if Survives(records, hs, m - 1) then [m - 1] else [])
  }

  /** The surviving records among the first `m`, re-synced, in their original order. */
  function KeptUpTo(records: seq<ResponseRecord>, problem: seq<Responder>, hs: seq<int>, m: nat): seq<ResponseRecord>
    requires |hs| == |problem| && m <= |records|
  {
    if m == 0 then []
    else KeptUpTo(records, problem, hs, m - 1) +
         (if Survives(records, hs, m - 1) then [KeptRecord(records, problem, hs, m - 1)] else [])
  }

  /** The indices, among the first `m` responders, of those that consume no record, in order. */
  function FreshIndices(records: seq<ResponseRecord>, hs: seq<int>, m: nat): seq<nat>
    requires m <= |hs|
  {
    if m == 0 then [] else FreshIndices(records, hs, m - 1) + (if Consumes(records, hs, m - 1) then [] else [m - 1])
  }

  /** The blank records `_create_child` makes for the first `m` responders that consume no record. */
  function FreshUpTo(records: seq<ResponseRecord>, problem: seq<Responder>, hs: seq<int>, hasher: Element -> int, m: nat): seq<ResponseRecord>
    requires |hs| == |problem| && m <= |problem|
  {
    if m == 0 then []
    else FreshUpTo(records, problem, hs, hasher, m - 1) +
         (if Consumes(records, hs, m - 1) then [] else [NewRecord(problem[m - 1], map[], hasher)])
  }

  /**
   * The records after `_rematch`, before the dictionary is rebuilt: the
   * surviving old records, re-synced, in their order, then one blank record
   * per responder that consumed none, in document order.
   */
  function Rematched(records: seq<ResponseRecord>, problem: seq<Responder>, hasher: Element -> int): seq<ResponseRecord>
  {
    var hs := Hashes(problem, hasher);
    KeptUpTo(records, problem, hs, |records|) + FreshUpTo(records, problem, hs, hasher, |problem|)
  }

  /** The surviving records are exactly the records at the surviving indices, in increasing order. */
  lemma KeptIndicesExact(records: seq<ResponseRecord>, problem: seq<Responder>, hs: seq<int>, m: nat)
    requires |hs| == |problem| && m <= |records|
    ensures var ki := KeptIndices(records, hs, m);
      && (forall i: nat :: i in ki <==> i < m && Survives(records, hs, i))
      && (forall a, b :: 0 <= a < b < |ki| ==> ki[a] < ki[b])
      && (forall a :: 0 <= a < |ki| ==> ki[a] < m)
      && |KeptUpTo(records, problem, hs, m)| == |ki|
      && forall a :: 0 <= a < |ki| ==>
           Survives(records, hs, ki[a]) && KeptUpTo(records, problem, hs, m)[a] == KeptRecord(records, problem, hs, ki[a])
  {
    KeptIndicesMembers(records, hs, m);
    KeptIndicesSorted(records, hs, m);
    KeptRecordsAt(records, problem, hs, m);
  }

  /** An index is kept exactly when it survives. */
  lemma {:induction false} KeptIndicesMembers(records: seq<ResponseRecord>, hs: seq<int>, m: nat)
    requires m <= |records|
    ensures forall i: nat :: i in KeptIndices(records, hs, m) <==> i < m && Survives(records, hs, i)
  {
    if m > 0 {
      KeptIndicesMembers(records, hs, m - 1);
    }
  }

  /** The kept indices increase and stay below `m`. */
  lemma {:induction false} KeptIndicesSorted(records: seq<ResponseRecord>, hs: seq<int>, m: nat)
    requires m <= |records|
    ensures forall a, b :: 0 <= a < b < |KeptIndices(records, hs, m)| ==> KeptIndices(records, hs, m)[a] < KeptIndices(records, hs, m)[b]
    ensures forall a :: 0 <= a < |KeptIndices(records, hs, m)| ==> KeptIndices(records, hs, m)[a] < m
  {
    if m > 0 {
      KeptIndicesSorted(records, hs, m - 1);
      var prev := KeptIndices(records, hs, m - 1);
      if Survives(records, hs, m - 1) {
        var ki := prev + [m - 1];
        assert KeptIndices(records, hs, m) == ki;
        assert forall a :: 0 <= a < |prev| ==> ki[a] == prev[a];
      } else {
        assert KeptIndices(records, hs, m) == prev;
      }
    }
  }

  /** The kept record at each position is the re-synced record at the kept index there. */
  lemma {:induction false} KeptRecordsAt(records: seq<ResponseRecord>, problem: seq<Responder>, hs: seq<int>, m: nat)
    requires |hs| == |problem| && m <= |records|
    ensures var ki := KeptIndices(records, hs, m);
      && |KeptUpTo(records, problem, hs, m)| == |ki|
      && forall a :: 0 <= a < |ki| ==>
           ki[a] < m && Survives(records, hs, ki[a]) && KeptUpTo(records, problem, hs, m)[a] == KeptRecord(records, problem, hs, ki[a])
  {
    if m > 0 {
      KeptRecordsAt(records, problem, hs, m - 1);
    }
  }

  /**
   * `model_dict` keeps only the last record inserted under each hash, so no
   * two records that survive `_rematch` share a hash.
   */
  lemma KeptHashesDistinct(records: seq<ResponseRecord>, problem: seq<Responder>, hs: seq<int>)
    requires |hs| == |problem|
    ensures var ki := KeptIndices(records, hs, |records|);
      forall a, b :: 0 <= a < b < |ki| ==> ki[a] < ki[b] < |records| && records[ki[a]].xmlHash != records[ki[b]].xmlHash
  {
    var ki := KeptIndices(records, hs, |records|);
    KeptIndicesSorted(records, hs, |records|);
    KeptRecordsAt(records, problem, hs, |records|);
    forall a, b | 0 <= a < b < |ki| ensures records[ki[a]].xmlHash != records[ki[b]].xmlHash {
      assert Survives(records, hs, ki[a]);
      assert ki[a] < ki[b] < |records|;
    }
  }

  /** The blank records are exactly those of the non-consuming responders, in increasing order. */
  lemma FreshIndicesExact(records: seq<ResponseRecord>, problem: seq<Responder>, hs: seq<int>, hasher: Element -> int, m: nat)
    requires |hs| == |problem| && m <= |problem|
    ensures var fi := FreshIndices(records, hs, m);
      && (forall j: nat :: j in fi <==> j < m && !Consumes(records, hs, j))
      && (forall a, b :: 0 <= a < b < |fi| ==> fi[a] < fi[b])
      && (forall a :: 0 <= a < |fi| ==> fi[a] < m)
      && |FreshUpTo(records, problem, hs, hasher, m)| == |fi|
      && forall a :: 0 <= a < |fi| ==> FreshUpTo(records, problem, hs, hasher, m)[a] == NewRecord(problem[fi[a]], map[], hasher)
  {
    FreshIndicesMembers(records, hs, m);
    FreshIndicesSorted(records, hs, m);
    FreshRecordsAt(records, problem, hs, hasher, m);
  }

  /** A responder gets a blank record exactly when it consumes none. */
  lemma {:induction false} FreshIndicesMembers(records: seq<ResponseRecord>, hs: seq<int>, m: nat)
    requires m <= |hs|
    ensures forall j: nat :: j in FreshIndices(records, hs, m) <==> j < m && !Consumes(records, hs, j)
  {
    if m > 0 {
      FreshIndicesMembers(records, hs, m - 1);
    }
  }

  /** The indices of the blank records increase and stay below `m`. */
  lemma {:induction false} FreshIndicesSorted(records: seq<ResponseRecord>, hs: seq<int>, m: nat)
    requires m <= |hs|
    ensures forall a, b :: 0 <= a < b < |FreshIndices(records, hs, m)| ==> FreshIndices(records, hs, m)[a] < FreshIndices(records, hs, m)[b]
    ensures forall a :: 0 <= a < |FreshIndices(records, hs, m)| ==> FreshIndices(records, hs, m)[a] < m
  {
    if m > 0 {
      FreshIndicesSorted(records, hs, m - 1);
      var prev := FreshIndices(records, hs, m - 1);
      if Consumes(records, hs, m - 1) {
        assert FreshIndices(records, hs, m) == prev;
      } else {
        var fi := prev + [m - 1];
        assert FreshIndices(records, hs, m) == fi;
        assert forall a :: 0 <= a < |prev| ==> fi[a] == prev[a];
      }
    }
  }

  /** The blank record at each position belongs to the responder at the index there. */
  lemma {:induction false} FreshRecordsAt(records: seq<ResponseRecord>, problem: seq<Responder>, hs: seq<int>, hasher: Element -> int, m: nat)
    requires |hs| == |problem| && m <= |problem|
    ensures var fi := FreshIndices(records, hs, m);
      && |FreshUpTo(records, problem, hs, hasher, m)| == |fi|
      && forall a :: 0 <= a < |fi| ==> fi[a] < m && FreshUpTo(records, problem, hs, hasher, m)[a] == NewRecord(problem[fi[a]], map[], hasher)
  {
    if m > 0 {
      FreshRecordsAt(records, problem, hs, hasher, m - 1);
    }
  }

  /** The surviving indices below `m`, as a set. */
  function SurvivorSet(records: seq<ResponseRecord>, hs: seq<int>, m: nat): set<nat>
    requires m <= |records|
  {
    if m == 0 then {} else SurvivorSet(records, hs, m - 1) + (if Survives(records, hs, m - 1) then {m - 1} else {})
  }

  /** The responders below `m` that consume a record, as a set. */
  function ConsumerSet(records: seq<ResponseRecord>, hs: seq<int>, m: nat): set<nat>
    requires m <= |hs|
  {
    if m == 0 then {} else ConsumerSet(records, hs, m - 1) + (if Consumes(records, hs, m - 1) then {m - 1} else {})
  }

  /** The survivor set holds exactly the surviving indices below `m`. */
  lemma {:induction false} SurvivorSetExact(records: seq<ResponseRecord>, hs: seq<int>, m: nat)
    requires m <= |records|
    ensures forall i: nat :: i in SurvivorSet(records, hs, m) <==> i < m && Survives(records, hs, i)
  {
    if m > 0 {
      SurvivorSetExact(records, hs, m - 1);
    }
  }

  /** The consumer set holds exactly the consuming responders below `m`. */
  lemma {:induction false} ConsumerSetExact(records: seq<ResponseRecord>, hs: seq<int>, m: nat)
    requires m <= |hs|
    ensures forall j: nat :: j in ConsumerSet(records, hs, m) <==> j < m && Consumes(records, hs, j)
  {
    if m > 0 {
      ConsumerSetExact(records, hs, m - 1);
    }
  }

  /** The survivor set holds only indices below `m`. */
  lemma {:induction false} SurvivorSetBelow(records: seq<ResponseRecord>, hs: seq<int>, m: nat)
    requires m <= |records|
    ensures forall i :: i in SurvivorSet(records, hs, m) ==> i < m
  {
    if m > 0 {
      SurvivorSetBelow(records, hs, m - 1);
    }
  }

  /** The consumer set holds only responders below `m`. */
  lemma {:induction false} ConsumerSetBelow(records: seq<ResponseRecord>, hs: seq<int>, m: nat)
    requires m <= |hs|
    ensures forall j :: j in ConsumerSet(records, hs, m) ==> j < m
  {
    if m > 0 {
      ConsumerSetBelow(records, hs, m - 1);
    }
  }

  /** Adding an index to a list and to a set that does not hold it yet grows both by one. */
  lemma CountStep(s: seq<nat>, S: set<nat>, b: bool, x: nat)
    requires x !in S && |s| == |S|
    ensures |s + (if b then [x] else [])| == |S + (if b then {x} else {})|
  {
  }

  /** Adding an index either to a list or to a set that does not hold it yet grows their total by one. */
  lemma SplitCountStep(s: seq<nat>, S: set<nat>, b: bool, x: nat)
    requires x !in S
    ensures |s + (if b then [] else [x])| + |S + (if b then {x} else {})| == |s| + |S| + 1
  {
  }

  /** The surviving records among the first `m` are as many as the surviving indices below `m`. */
  lemma {:induction false} KeptCount(records: seq<ResponseRecord>, hs: seq<int>, m: nat)
    requires m <= |records|
    ensures |KeptIndices(records, hs, m)| == |SurvivorSet(records, hs, m)|
  {
    if m > 0 {
      KeptCount(records, hs, m - 1);
      KeptCountStep(records, hs, m);
    }
  }

  /** One more record keeps the kept list and the survivor set equally large. */
  lemma KeptCountStep(records: seq<ResponseRecord>, hs: seq<int>, m: nat)
    requires 0 < m <= |records|
    requires |KeptIndices(records, hs, m - 1)| == |SurvivorSet(records, hs, m - 1)|
    ensures |KeptIndices(records, hs, m)| == |SurvivorSet(records, hs, m)|
  {
    var n := m - 1;
    assert n !in SurvivorSet(records, hs, n) by {
      SurvivorSetBelow(records, hs, n);
    }
    CountStep(KeptIndices(records, hs, n), SurvivorSet(records, hs, n), Survives(records, hs, n), n);
  }

  /** Among the first `m` responders, the non-consuming ones and the consuming ones add up to `m`. */
  lemma {:induction false} FreshCount(records: seq<ResponseRecord>, hs: seq<int>, m: nat)
    requires m <= |hs|
    ensures |FreshIndices(records, hs, m)| + |ConsumerSet(records, hs, m)| == m
  {
    if m > 0 {
      FreshCount(records, hs, m - 1);
      FreshCountStep(records, hs, m);
    }
  }

  /** One more responder adds one to either the blank records or the consumers. */
  lemma FreshCountStep(records: seq<ResponseRecord>, hs: seq<int>, m: nat)
    requires 0 < m <= |hs|
    ensures |FreshIndices(records, hs, m)| + |ConsumerSet(records, hs, m)|
         == |FreshIndices(records, hs, m - 1)| + |ConsumerSet(records, hs, m - 1)| + 1
  {
    var n := m - 1;
    assert n !in ConsumerSet(records, hs, n) by {
      ConsumerSetBelow(records, hs, n);
    }
    SplitCountStep(FreshIndices(records, hs, n), ConsumerSet(records, hs, n), Consumes(records, hs, n), n);
  }

  /** An injective map from one finite set onto another makes them equally large. */
  lemma {:induction false} BijectionCard(A: set<nat>, B: set<nat>, f: nat -> nat)
    requires forall a :: a in A ==> f(a) in B
    requires forall b :: b in B ==> exists a :: a in A && f(a) == b
    requires forall a1, a2 :: a1 in A && a2 in A && f(a1) == f(a2) ==> a1 == a2
    ensures |A| == |B|
    decreases A
  {
    if A != {} {
      var a :| a in A;
      BijectionCard(A - {a}, B - {f(a)}, f);
    }
  }

  /** The record `model_dict` hands to responder `j`: the last one carrying its hash. */
  function MatchedRecord(records: seq<ResponseRecord>, hs: seq<int>, j: nat): nat
  {
    var idx := HashIndex(records);
    if j < |hs| && hs[j] in idx then idx[hs[j]] else 0
  }

  /** A consuming responder is handed a surviving record. */
  lemma ConsumerMatched(records: seq<ResponseRecord>, hs: seq<int>, j: nat)
    requires j < |hs| && Consumes(records, hs, j)
    ensures MatchedRecord(records, hs, j) < |records| && Survives(records, hs, MatchedRecord(records, hs, j))
  {
    var idx := HashIndex(records);
    assert hs[j] in idx;
    assert records[idx[hs[j]]].xmlHash in hs;
  }

  /** A surviving record is handed to the first responder with its hash, which consumes it. */
  lemma SurvivorMatched(records: seq<ResponseRecord>, hs: seq<int>, i: nat) returns (j: nat)
    requires i < |records| && Survives(records, hs, i)
    ensures j < |hs| && Consumes(records, hs, j) && MatchedRecord(records, hs, j) == i
  {
    var h := records[i].xmlHash;
    j := FirstIndex(hs, h).value;
    assert h in HashIndex(records);
  }

  /** Two consuming responders handed the same record are the same responder. */
  lemma MatchedInjective(records: seq<ResponseRecord>, hs: seq<int>, j1: nat, j2: nat)
    requires j1 < |hs| && Consumes(records, hs, j1)
    requires j2 < |hs| && Consumes(records, hs, j2)
    requires MatchedRecord(records, hs, j1) == MatchedRecord(records, hs, j2)
    ensures j1 == j2
  {
    var idx := HashIndex(records);
    assert hs[j1] in idx && hs[j2] in idx;
    assert hs[j1] == hs[j2];
  }

  /** Each surviving record corresponds to exactly one consuming responder, and back. */
  lemma SurvivorsMatchConsumers(records: seq<ResponseRecord>, hs: seq<int>)
    ensures |SurvivorSet(records, hs, |records|)| == |ConsumerSet(records, hs, |hs|)|
  {
    var A := ConsumerSet(records, hs, |hs|);
    var B := SurvivorSet(records, hs, |records|);
    ConsumerSetExact(records, hs, |hs|);
    SurvivorSetExact(records, hs, |records|);
    var f := (j: nat) => MatchedRecord(records, hs, j);
    forall j | j in A ensures f(j) in B {
      ConsumerMatched(records, hs, j);
    }
    forall i | i in B ensures exists j :: j in A && f(j) == i {
      var j := SurvivorMatched(records, hs, i);
      assert j in A;
    }
    forall j1, j2 | j1 in A && j2 in A && f(j1) == f(j2) ensures j1 == j2 {
      MatchedInjective(records, hs, j1, j2);
    }
    BijectionCard(A, B, f);
  }

  /** `_rematch` leaves exactly one record per responder. */
  lemma RematchedCount(records: seq<ResponseRecord>, problem: seq<Responder>, hasher: Element -> int)
    ensures |Rematched(records, problem, hasher)| == |problem|
  {
    var hs := Hashes(problem, hasher);
    KeptIndicesExact(records, problem, hs, |records|);
    FreshIndicesExact(records, problem, hs, hasher, |problem|);
    KeptCount(records, hs, |records|);
    FreshCount(records, hs, |problem|);
    SurvivorsMatchConsumers(records, hs);
  }

  /** A response appended at the end: the old record stays as it was and the new responder gets a blank record. */
  lemma RematchAppend(rec: ResponseRecord, p0: Responder, p1: Responder, hasher: Element -> int)
    requires rec.stringId == p0.id && rec.xmlHash == HashXml(hasher, p0.xml)
    requires HashXml(hasher, p1.xml) != rec.xmlHash
    ensures Rematched([rec], [p0, p1], hasher) == [rec, NewRecord(p1, map[], hasher)]
  {
    var rs, pr := [rec], [p0, p1];
    var hs := Hashes(pr, hasher);
    assert FirstIndex(hs, hs[0]) == Some(0);
    assert Survives(rs, hs, 0);
    assert KeptUpTo(rs, pr, hs, 1) == [rec];
    assert Consumes(rs, hs, 0) by { assert rs[0].xmlHash == hs[0]; }
    assert !Consumes(rs, hs, 1);
    assert FreshUpTo(rs, pr, hs, hasher, 1) == [];
    assert FreshUpTo(rs, pr, hs, hasher, 2) == [NewRecord(p1, map[], hasher)];
  }

  /**
   * A response inserted before the old one: the old record follows its
   * responder to the second place and takes its ids, and the inserted
   * responder gets a blank record, listed after it.
   */
  lemma RematchInsert(rec: ResponseRecord, pNew: Responder, p0: Responder, hasher: Element -> int)
    requires rec.xmlHash == HashXml(hasher, p0.xml)
    requires HashXml(hasher, pNew.xml) != rec.xmlHash
    ensures Rematched([rec], [pNew, p0], hasher) == [Resynced(rec, p0), NewRecord(pNew, map[], hasher)]
  {
    var rs, pr := [rec], [pNew, p0];
    var hs := Hashes(pr, hasher);
    assert FirstIndex(hs, hs[1]) == Some(1);
    assert Survives(rs, hs, 0);
    assert KeptUpTo(rs, pr, hs, 1) == [Resynced(rec, p0)];
    assert !Consumes(rs, hs, 0);
    assert Consumes(rs, hs, 1) by { assert rs[0].xmlHash == hs[1]; assert hs[..1] == [hs[0]]; }
    assert FreshUpTo(rs, pr, hs, hasher, 1) == [NewRecord(pNew, map[], hasher)];
    assert FreshUpTo(rs, pr, hs, hasher, 2) == [NewRecord(pNew, map[], hasher)];
  }

  /**
   * A response whose XML changed (an input added, or a different problem):
   * the old record and its answers are dropped and the responder gets a
   * blank record.
   */
  lemma RematchChanged(rec: ResponseRecord, p: Responder, hasher: Element -> int)
    requires HashXml(hasher, p.xml) != rec.xmlHash
    ensures Rematched([rec], [p], hasher) == [NewRecord(p, map[], hasher)]
    ensures AllBlank(NewRecord(p, map[], hasher))
  {
    var rs, pr := [rec], [p];
    var hs := Hashes(pr, hasher);
    assert !Survives(rs, hs, 0);
    assert KeptUpTo(rs, pr, hs, 1) == [];
    assert !Consumes(rs, hs, 0);
    assert FreshUpTo(rs, pr, hs, hasher, 1) == [NewRecord(p, map[], hasher)];
  }

  /** The first loop of `_rematch`: `model_dict` filled in record order. */
  method BuildHashIndex(records: seq<ResponseRecord>) returns (modelDict: map<int, nat>)
    ensures modelDict == HashIndex(records)
  {
    modelDict := FillIndex(records, |records|);
  }

  /** The first `n` rounds of the first loop of `_rematch`. */
  method FillIndex(records: seq<ResponseRecord>, n: nat) returns (modelDict: map<int, nat>)
    requires n <= |records|
    ensures modelDict == IndexUpTo(records, n)
  {
    modelDict := map[];
    for i := 0 to n
      invariant modelDict == IndexUpTo(records, i)
    {
      modelDict := modelDict[records[i].xmlHash := i];
    }
  }

  // The state of the second loop of `_rematch` after the first `j` responders,
  // one predicate per variable the loop updates.

  /** `model_dict` holds exactly the stored hashes no responder has claimed yet, each with its last record. */
  ghost predicate UnclaimedUpTo(records: seq<ResponseRecord>, hs: seq<int>, j: nat, modelDict: map<int, nat>)
  {
    Unclaimed(HashIndex(records), hs, j, modelDict)
  }

  /** `modelDict` holds the entries of `idx` whose hash no responder before `j` has claimed. */
  ghost predicate Unclaimed(idx: map<int, nat>, hs: seq<int>, j: nat, modelDict: map<int, nat>)
  {
    && (forall h :: h in modelDict <==> h in idx && !Claimed(hs, h, j))
    && (forall h :: h in modelDict ==> h in idx && modelDict[h] == idx[h])
  }

  /** Responder `j` claims exactly the hash whose first responder it is. */
  lemma ClaimedNext(hs: seq<int>, h: int, j: nat)
    requires j < |hs|
    ensures Claimed(hs, h, j + 1) <==> Claimed(hs, h, j) || (h == hs[j] && FirstIndex(hs, h) == Some(j))
  {
  }

  /** Popping the hash of the responder that claims it keeps `model_dict` unclaimed. */
  lemma PopStep(idx: map<int, nat>, hs: seq<int>, j: nat, modelDict: map<int, nat>)
    requires j < |hs| && FirstIndex(hs, hs[j]) == Some(j)
    requires Unclaimed(idx, hs, j, modelDict)
    ensures Unclaimed(idx, hs, j + 1, modelDict - {hs[j]})
  {
    forall h
      ensures h in modelDict - {hs[j]} <==> h in idx && !Claimed(hs, h, j + 1)
    {
      ClaimedNext(hs, h, j);
    }
  }

  /** A responder whose hash is not in `model_dict` claims nothing new. */
  lemma KeepStep(idx: map<int, nat>, hs: seq<int>, j: nat, modelDict: map<int, nat>)
    requires j < |hs| && hs[j] !in modelDict
    requires Unclaimed(idx, hs, j, modelDict)
    ensures Unclaimed(idx, hs, j + 1, modelDict)
  {
    forall h
      ensures h in modelDict <==> h in idx && !Claimed(hs, h, j + 1)
    {
      ClaimedNext(hs, h, j);
    }
  }

  /** The claimed records are re-synced, the others untouched. */
  ghost predicate CurrentUpTo(records: seq<ResponseRecord>, problem: seq<Responder>, hs: seq<int>, j: nat, current: seq<ResponseRecord>)
    requires |hs| == |problem|
  {
    && |current| == |records|
    && forall i :: 0 <= i < |records| ==>
         current[i] == if ConsumedBefore(records, hs, i, j) then KeptRecord(records, problem, hs, i) else records[i]
  }

  /** `used_models` lists the claimed records. */
  ghost predicate UsedUpTo(records: seq<ResponseRecord>, hs: seq<int>, j: nat, used: set<nat>)
  {
    forall i: nat :: i in used <==> i < |records| && ConsumedBefore(records, hs, i, j)
  }

  /** The record `model_dict` gives a responder is the last with its hash, and the responder is the first with it. */
  lemma HitTarget(records: seq<ResponseRecord>, hs: seq<int>, j: nat, modelDict: map<int, nat>)
    requires j < |hs| && UnclaimedUpTo(records, hs, j, modelDict) && hs[j] in modelDict
    ensures var i := modelDict[hs[j]];
      && i < |records| && records[i].xmlHash == hs[j]
      && (forall k :: i < k < |records| ==> records[k].xmlHash != records[i].xmlHash)
      && FirstIndex(hs, hs[j]) == Some(j) && Consumes(records, hs, j)
  {
    FirstWithHash(hs, j);
  }

  /** Claiming record `i` for responder `j` re-syncs that record and leaves the others as they were. */
  lemma HitCurrent(records: seq<ResponseRecord>, problem: seq<Responder>, hs: seq<int>, j: nat, i: nat, current: seq<ResponseRecord>)
    requires |hs| == |problem| && j < |hs| && i < |records|
    requires records[i].xmlHash == hs[j] && FirstIndex(hs, hs[j]) == Some(j)
    requires forall k :: i < k < |records| ==> records[k].xmlHash != records[i].xmlHash
    requires CurrentUpTo(records, problem, hs, j, current)
    ensures CurrentUpTo(records, problem, hs, j + 1, current[i := Resynced(current[i], problem[j])])
  {
    ConsumedStep(records, hs, j);
    LastWithHashUnique(records, i);
    assert !ConsumedBefore(records, hs, i, j);
  }

  /** Claiming record `i` for responder `j` adds `i`, and only `i`, to the claimed records. */
  lemma HitUsed(records: seq<ResponseRecord>, hs: seq<int>, j: nat, i: nat, used: set<nat>)
    requires j < |hs| && i < |records|
    requires records[i].xmlHash == hs[j] && FirstIndex(hs, hs[j]) == Some(j)
    requires forall k :: i < k < |records| ==> records[k].xmlHash != records[i].xmlHash
    requires UsedUpTo(records, hs, j, used)
    ensures UsedUpTo(records, hs, j + 1, used + {i})
  {
    ConsumedStep(records, hs, j);
    LastWithHashUnique(records, i);
  }

  /** Responder `j`, the first with its hash, pops exactly that hash from `model_dict`. */
  lemma HitDict(records: seq<ResponseRecord>, hs: seq<int>, j: nat, modelDict: map<int, nat>)
    requires j < |hs| && FirstIndex(hs, hs[j]) == Some(j)
    requires UnclaimedUpTo(records, hs, j, modelDict)
    ensures UnclaimedUpTo(records, hs, j + 1, modelDict - {hs[j]})
  {
    PopStep(HashIndex(records), hs, j, modelDict);
  }

  /** The blank records stay as they were for a responder that consumes a record. */
  lemma HitFresh(records: seq<ResponseRecord>, problem: seq<Responder>, hasher: Element -> int, hs: seq<int>, j: nat)
    requires |hs| == |problem| && j < |problem| && Consumes(records, hs, j)
    ensures FreshUpTo(records, problem, hs, hasher, j + 1) == FreshUpTo(records, problem, hs, hasher, j)
  {
  }

  /** A responder whose hash is not in `model_dict` consumes no record. */
  lemma MissConsumesNothing(records: seq<ResponseRecord>, hs: seq<int>, j: nat, modelDict: map<int, nat>)
    requires j < |hs| && UnclaimedUpTo(records, hs, j, modelDict) && hs[j] !in modelDict
    ensures !Consumes(records, hs, j)
  {
    FirstWithHash(hs, j);
  }

  /** Such a responder claims no record: the records and `used_models` stay as they were. */
  lemma MissClaimsNothing(records: seq<ResponseRecord>, problem: seq<Responder>, hs: seq<int>, j: nat,
                          modelDict: map<int, nat>, current: seq<ResponseRecord>, used: set<nat>)
    requires |hs| == |problem| && j < |hs| && UnclaimedUpTo(records, hs, j, modelDict) && hs[j] !in modelDict
    requires CurrentUpTo(records, problem, hs, j, current) && UsedUpTo(records, hs, j, used)
    ensures CurrentUpTo(records, problem, hs, j + 1, current) && UsedUpTo(records, hs, j + 1, used)
  {
    ConsumedStep(records, hs, j);
    forall i | 0 <= i < |records| && records[i].xmlHash == hs[j]
      ensures FirstIndex(hs, hs[j]) != Some(j)
    {
      assert hs[j] in HashIndex(records);
    }
    assert forall i :: 0 <= i < |records| ==> ConsumedBefore(records, hs, i, j + 1) == ConsumedBefore(records, hs, i, j);
  }

  /** Such a responder leaves `model_dict` as it was. */
  lemma MissKeepsDict(records: seq<ResponseRecord>, hs: seq<int>, j: nat, modelDict: map<int, nat>)
    requires j < |hs| && UnclaimedUpTo(records, hs, j, modelDict) && hs[j] !in modelDict
    ensures UnclaimedUpTo(records, hs, j + 1, modelDict)
  {
    KeepStep(HashIndex(records), hs, j, modelDict);
  }

  /** The blank records grow by one for a responder that consumes nothing. */
  lemma MissFresh(records: seq<ResponseRecord>, problem: seq<Responder>, hasher: Element -> int, hs: seq<int>, j: nat)
    requires |hs| == |problem| && j < |problem| && !Consumes(records, hs, j)
    ensures FreshUpTo(records, problem, hs, hasher, j + 1) ==
            FreshUpTo(records, problem, hs, hasher, j) + [NewRecord(problem[j], map[], hasher)]
  {
  }

  /** After the last responder, the claimed records are exactly the survivors. */
  lemma AssignEnd(records: seq<ResponseRecord>, problem: seq<Responder>, hs: seq<int>, current: seq<ResponseRecord>, used: set<nat>)
    requires |hs| == |problem|
    requires CurrentUpTo(records, problem, hs, |problem|, current) && UsedUpTo(records, hs, |problem|, used)
    ensures |current| == |records|
    ensures forall i: nat :: i in used <==> i < |records| && Survives(records, hs, i)
    ensures forall i :: 0 <= i < |records| && Survives(records, hs, i) ==> current[i] == KeptRecord(records, problem, hs, i)
  {
    assert forall i :: 0 <= i < |records| ==> (ConsumedBefore(records, hs, i, |problem|) <==> Survives(records, hs, i));
  }

  /**
   * One turn of the second loop of `_rematch`: responder `j` pops its hash
   * from `model_dict` and re-syncs the record found there, or gets a new
   * blank record.
   */
  method AssignNext(records: seq<ResponseRecord>, problem: seq<Responder>, hasher: Element -> int, ghost hs: seq<int>, j: nat,
                    modelDict: map<int, nat>, current: seq<ResponseRecord>, used: set<nat>, created: seq<ResponseRecord>)
    returns (modelDict': map<int, nat>, current': seq<ResponseRecord>, used': set<nat>, created': seq<ResponseRecord>)
    requires |hs| == |problem| && j < |problem| && hs[j] == HashXml(hasher, problem[j].xml)
    requires UnclaimedUpTo(records, hs, j, modelDict) && CurrentUpTo(records, problem, hs, j, current)
    requires UsedUpTo(records, hs, j, used) && created == FreshUpTo(records, problem, hs, hasher, j)
    ensures UnclaimedUpTo(records, hs, j + 1, modelDict') && CurrentUpTo(records, problem, hs, j + 1, current')
    ensures UsedUpTo(records, hs, j + 1, used') && created' == FreshUpTo(records, problem, hs, hasher, j + 1)
  {
    modelDict', current', used', created' := modelDict, current, used, created;
    var h := HashXml(hasher, problem[j].xml);
    if h in modelDict {
      var i := modelDict[h];
      var rec := RematchResponse(current[i], problem[j]);
      HitTarget(records, hs, j, modelDict);
      HitCurrent(records, problem, hs, j, i, current);
      HitUsed(records, hs, j, i, used);
      HitDict(records, hs, j, modelDict);
      HitFresh(records, problem, hasher, hs, j);
      current' := current[i := rec];
      used' := used + {i};
      modelDict' := modelDict - {h};
    } else {
      var rec := NewResponse(problem[j], map[], hasher);
      MissConsumesNothing(records, hs, j, modelDict);
      MissClaimsNothing(records, problem, hs, j, modelDict, current, used);
      MissKeepsDict(records, hs, j, modelDict);
      MissFresh(records, problem, hasher, hs, j);
      created' := created + [rec];
    }
  }

  /**
   * The second loop of `_rematch`, over the responders in document order.
   * `used` is `used_models`, `created` the new records in order.
   */
  method AssignResponders(records: seq<ResponseRecord>, problem: seq<Responder>, hasher: Element -> int, modelDict0: map<int, nat>)
    returns (current: seq<ResponseRecord>, used: set<nat>, created: seq<ResponseRecord>)
    requires modelDict0 == HashIndex(records)
    ensures |current| == |records|
    ensures forall i: nat :: i in used <==> i < |records| && Survives(records, Hashes(problem, hasher), i)
    ensures forall i :: 0 <= i < |records| && Survives(records, Hashes(problem, hasher), i) ==>
              current[i] == KeptRecord(records, problem, Hashes(problem, hasher), i)
    ensures created == FreshUpTo(records, problem, Hashes(problem, hasher), hasher, |problem|)
  {
    ghost var hs := Hashes(problem, hasher);
    var modelDict := modelDict0;
    current := records;
    used := {};
    created := [];
    for j := 0 to |problem|
      invariant UnclaimedUpTo(records, hs, j, modelDict)
      invariant CurrentUpTo(records, problem, hs, j, current)
      invariant UsedUpTo(records, hs, j, used)
      invariant created == FreshUpTo(records, problem, hs, hasher, j)
    {
      modelDict, current, used, created := AssignNext(records, problem, hasher, hs, j, modelDict, current, used, created);
    }
    AssignEnd(records, problem, hs, current, used);
  }

  /** The third loop of `_rematch`: the records no responder took are deleted, the others kept in order. */
  method DropUnused(records: seq<ResponseRecord>, problem: seq<Responder>, hasher: Element -> int,
                    current: seq<ResponseRecord>, used: set<nat>) returns (kept: seq<ResponseRecord>)
    requires |current| == |records|
    requires forall i: nat :: i in used <==> i < |records| && Survives(records, Hashes(problem, hasher), i)
    requires forall i :: 0 <= i < |records| && Survives(records, Hashes(problem, hasher), i) ==>
               current[i] == KeptRecord(records, problem, Hashes(problem, hasher), i)
    ensures kept == KeptUpTo(records, problem, Hashes(problem, hasher), |records|)
  {
    kept := [];
    for i := 0 to |records|
      invariant kept == KeptUpTo(records, problem, Hashes(problem, hasher), i)
    {
      if i in used {
        kept := kept + [current[i]];
      }
    }
  }
}
