/**
 * The `ContentTest` object: a stored set of answers for one capa problem,
 * the verdict rules, and the reconciliation it runs when the problem has
 * been edited.  The database rows are held in memory: `responses` are the
 * test's `Response` rows, each carrying its `Input` rows.
 */
module ContentTesting {
  import opened Wrappers
  import opened XmlTree
  import opened XmlHash
  import opened ContentRecords

  /** The verdict messages. */
  const ERROR := "ERROR"
  const PASS := "Pass"
  const FAIL := "Fail"
  const NOT_RUN := "Not Run"

  /** `should_be.lower()` on ASCII letters; other characters are kept as they are. */
  function Lower(s: string): string
  {
    seq(|s|, i requires 0 <= i < |s| => if 'A' <= s[i] <= 'Z' then (s[i] as int + 32) as char else s[i])
  }

  /** No graded response was marked `incorrect`. */
  predicate PassingAll(correctness: seq<string>)
  {
    forall k :: 0 <= k < |correctness| ==> correctness[k] != "incorrect"
  }

  /**
   * `_make_verdict`: an ungradable test passes only when `ERROR` (exactly
   * that spelling) was expected; a graded test passes when the expectation,
   * read case-insensitively, is `correct` and nothing was marked incorrect, or
   * `incorrect` and something was.  `correctness` holds the `correctness`
   * value of every graded response; `None` stands for grading that raised.
   */
  function Verdict(shouldBe: string, grades: Option<seq<string>>): string
  {
    match grades
    case None => if shouldBe == ERROR then PASS else ERROR
    case Some(correctness) =>
      if (Lower(shouldBe) == "correct" && PassingAll(correctness)) ||
         (Lower(shouldBe) == "incorrect" && !PassingAll(correctness))
      then PASS else FAIL
  }

  /**
   * A verdict is always one of the three messages; `ERROR` only ever comes from grading that raised,
   * and grading that raised passes exactly when the test expected the error.
   */
  lemma VerdictRange(shouldBe: string, grades: Option<seq<string>>)
    ensures Verdict(shouldBe, grades) in {PASS, FAIL, ERROR}
    ensures Verdict(shouldBe, grades) == ERROR <==> grades.None? && shouldBe != ERROR
    ensures grades.None? ==> (Verdict(shouldBe, grades) == PASS <==> shouldBe == ERROR)
  {
  }

  /** The verdicts of the model's test cases: right and wrong answers, for both expectations, and errors. */
  lemma VerdictExamples()
    ensures Verdict("Correct", Some(["correct", "correct"])) == PASS
    ensures Verdict("Correct", Some(["correct", "incorrect"])) == FAIL
    ensures Verdict("Incorrect", Some(["incorrect"])) == PASS
    ensures Verdict("Incorrect", Some(["correct"])) == FAIL
    ensures Verdict("ERROR", None) == PASS
    ensures Verdict("Correct", None) == ERROR
    ensures Verdict("ERROR", Some([])) == FAIL
  {
    assert Lower("Correct") == "correct";
    assert Lower("Incorrect") == "incorrect";
    assert Lower("ERROR") == "error";
    assert !PassingAll(["correct", "incorrect"]) by { assert ["correct", "incorrect"][1] == "incorrect"; }
    assert !PassingAll(["incorrect"]) by { assert ["incorrect"][0] == "incorrect"; }
  }

  /** The records `_create_children` makes, one per responder, with answers from the dictionary. */
  function NewRecords(problem: seq<Responder>, answers: map<string, string>, hasher: Element -> int): seq<ResponseRecord>
  {
    seq(|problem|, j requires 0 <= j < |problem| => NewRecord(problem[j], answers, hasher))
  }

  /**
   * How `save` ended: the row was stored; a `KeyError` stopped the write-back
   * of the answers before the row was stored; or the row was stored and
   * fetching the problem for `_create_children` raised.
   */
  datatype SaveStatus = Stored | MissingAnswer | ProblemUnavailable(message: string)

  /**
   * The records after `save`, and how it ended: a newly assigned dictionary
   * different from the one given at construction is written into the inputs
   * first; a test without records afterwards gets one per responder of the
   * fetched problem, or none when the fetch raised.
   */
  function SaveOutcome(records: seq<ResponseRecord>, d: map<string, string>, pending: bool, initial: map<string, string>,
                       fetched: Result<seq<Responder>, string>, hasher: Element -> int): (seq<ResponseRecord>, SaveStatus)
  {
    var (updated, ok) := if pending && d != initial then UpdateAnswers(records, d) else (records, true);
    if !ok then (updated, MissingAnswer)
    else if updated == [] then
      match fetched
      case Err(e) => ([], ProblemUnavailable(e))
      case Ok(problem) => (NewRecords(problem, d, hasher), Stored)
    else (updated, Stored)
  }

  /**
   * Saving the dictionary rebuilt from non-empty records never raises, and
   * with distinct input ids it leaves the records as they are.
   */
  lemma SaveRemadeDict(records: seq<ResponseRecord>, initial: map<string, string>, problem: seq<Responder>, hasher: Element -> int)
    ensures SaveOutcome(records, RemakeDict(records), true, initial, Ok(problem), hasher).1 == Stored
    ensures records != [] && DistinctInputIds(records) ==>
            SaveOutcome(records, RemakeDict(records), true, initial, Ok(problem), hasher).0 == records
  {
    RemakeDictCovers(records);
    UpdateAnswersExact(records, RemakeDict(records));
    if DistinctInputIds(records) {
      RemakeDictRoundTrip(records);
    }
  }

  /** What `rematch_if_necessary` did. */
  datatype RematchStep = NotSaved | Restructured | Rehashed | Current

  /** Why `run` raised: fetching the problem failed, or the save stopped at a missing answer. */
  datatype RunFailure = ProblemFailed(message: string) | SaveFailed

  /** A preview module: the responders of the problem and the student answers it was built with. */
  datatype PreviewModule = PreviewModule(responders: seq<Responder>, studentAnswers: map<string, string>)

  /** `CACHE_ON` and `CACHE_MODULESTORE`: preview modules by test key, kept only while rematching. */
  class PreviewCache {
    var on: bool
    var store: map<nat, PreviewModule>

    constructor()
      ensures !on && store == map[]
    {
      on := false;
      store := map[];
    }
  }

  class ContentTest {
    /** The primary key, the key of the preview cache. */
    const key: nat
    /** The dictionary given at construction, against which a newly assigned one is compared. */
    const initialDict: map<string, string>
    const shouldBe: string
    var verdict: string
    var responseDict: map<string, string>
    /** A dictionary was assigned and not yet saved (the field holds a dict, not its pickle). */
    var dictAssigned: bool
    /** The row exists in the database. */
    var saved: bool
    var responses: seq<ResponseRecord>

    /** `ContentTest(...)`: a missing dictionary is the empty one; nothing is stored yet. */
    constructor(key: nat, shouldBe: string, responseDict: Option<map<string, string>>)
      ensures this.key == key && this.shouldBe == shouldBe
      ensures this.responseDict == (if responseDict.Some? then responseDict.value else map[])
      ensures initialDict == this.responseDict
      ensures verdict == "" && !dictAssigned && !saved && responses == []
    {
      this.key := key;
      this.shouldBe := shouldBe;
      var d := if responseDict.Some? then responseDict.value else map[];
      this.responseDict := d;
      initialDict := d;
      verdict := "";
      dictAssigned := false;
      saved := false;
      responses := [];
    }

    /** `test.response_dict = d`: the next save compares it with the initial dictionary. */
    method AssignResponseDict(d: map<string, string>)
      modifies this
      ensures responseDict == d && dictAssigned
      ensures verdict == old(verdict) && saved == old(saved) && responses == old(responses)
    {
      responseDict := d;
      dictAssigned := true;
    }

    /**
     * `_make_verdict(correct_map)`, with the loop that looks for an
     * `incorrect` grade.
     */
    method MakeVerdict(grades: Option<seq<string>>) returns (v: string)
      ensures v == Verdict(shouldBe, grades)
    {
      if grades.None? {
        if shouldBe == ERROR {
          return PASS;
        }
        return ERROR;
      }
      var correctness := grades.value;
      var passingAll := true;
      var k := 0;
      while k < |correctness|
        invariant 0 <= k <= |correctness|
        invariant passingAll && forall m :: 0 <= m < k ==> correctness[m] != "incorrect"
      {
        if correctness[k] == "incorrect" {
          passingAll := false;
          break;
        }
        k := k + 1;
      }
      var lowered := Lower(shouldBe);
      if (lowered == "correct" && passingAll) || (lowered == "incorrect" && !passingAll) {
        v := PASS;
      } else {
        v := FAIL;
      }
    }

    /** `capa_module`: served from the cache while caching is on, built from the fetched problem otherwise. */
    method CapaModule(cache: PreviewCache, fetched: Result<seq<Responder>, string>) returns (m: Result<PreviewModule, string>)
      modifies cache
      ensures cache.on == old(cache.on)
      ensures old(cache.on) && key in old(cache.store) ==> m == Ok(old(cache.store)[key]) && cache.store == old(cache.store)
      ensures !(old(cache.on) && key in old(cache.store)) ==>
        match fetched
        case Err(e) => m == Err(e) && cache.store == old(cache.store)
        case Ok(rs) =>
          m == Ok(PreviewModule(rs, responseDict)) &&
          cache.store == if old(cache.on) then old(cache.store)[key := m.value] else old(cache.store)
    {
      if cache.on && key in cache.store {
        return Ok(cache.store[key]);
      }
      if fetched.Err? {
        return Err(fetched.error);
      }
      var preview := PreviewModule(fetched.value, responseDict);
      if cache.on {
        cache.store := cache.store[key := preview];
      }
      m := Ok(preview);
    }

    /** `_update_dictionary(new_dict)`: every input in turn takes its answer; a missing id stops with `KeyError`. */
    method UpdateDictionary(d: map<string, string>) returns (ok: bool)
      modifies this
      ensures (responses, ok) == UpdateAnswers(old(responses), d)
      ensures verdict == old(verdict) && responseDict == old(responseDict) && dictAssigned == old(dictAssigned) && saved == old(saved)
    {
      var after;
      after, ok := UpdateAllAnswers(responses, d);
      responses := after;
    }

    /** `_create_child(responder, response_dict)`: one new record at the end. */
    method CreateChild(p: Responder, answers: map<string, string>, hasher: Element -> int)
      modifies this
      ensures responses == old(responses) + [NewRecord(p, answers, hasher)]
      ensures verdict == old(verdict) && responseDict == old(responseDict) && dictAssigned == old(dictAssigned) && saved == old(saved)
    {
      var rec := NewResponse(p, answers, hasher);
      responses := responses + [rec];
    }

    /** `_create_children`: one record per responder, in document order, with answers from the dictionary. */
    method CreateChildren(problem: seq<Responder>, hasher: Element -> int)
      modifies this
      ensures responses == old(responses) + NewRecords(problem, responseDict, hasher)
      ensures verdict == old(verdict) && responseDict == old(responseDict) && dictAssigned == old(dictAssigned) && saved == old(saved)
    {
      for j := 0 to |problem|
        invariant responses == old(responses) + NewRecords(problem[..j], responseDict, hasher)
        invariant verdict == old(verdict) && responseDict == old(responseDict) && dictAssigned == old(dictAssigned) && saved == old(saved)
      {
        assert NewRecords(problem[..j + 1], responseDict, hasher) == NewRecords(problem[..j], responseDict, hasher) + [NewRecord(problem[j], responseDict, hasher)];
        CreateChild(problem[j], responseDict, hasher);
      }
      assert problem[..|problem|] == problem;
    }

    /**
     * `save`: resets the verdict unless the `dont_reset` keyword is present
     * (`dontReset`), whatever its value; writes a newly assigned, changed
     * dictionary into the inputs, where a `KeyError` stops the save before
     * the row is stored; stores the row; and, when there are no records,
     * creates them from the problem, whose fetch may raise.  `fetched` is
     * the problem as `capa_problem` yields it, or the error it raises.
     */
    method Save(dontReset: bool, fetched: Result<seq<Responder>, string>, hasher: Element -> int) returns (status: SaveStatus)
      modifies this
      ensures verdict == if dontReset then old(verdict) else NOT_RUN
      ensures responseDict == old(responseDict) && !dictAssigned
      ensures (responses, status) == SaveOutcome(old(responses), old(responseDict), old(dictAssigned), initialDict, fetched, hasher)
      ensures saved == (old(saved) || status != MissingAnswer)
    {
      if !dontReset {
        verdict := NOT_RUN;
      }
      if dictAssigned {
        dictAssigned := false;
        if responseDict != initialDict {
          var ok := UpdateDictionary(responseDict);
          if !ok {
            return MissingAnswer;
          }
        }
      }
      assert responses == (if old(dictAssigned) && responseDict != initialDict then UpdateAnswers(old(responses), responseDict).0
                           else old(responses));
      saved := true;
      status := Stored;
      if responses == [] {
        if fetched.Err? {
          return ProblemUnavailable(fetched.error);
        }
        CreateChildren(fetched.value, hasher);
        assert responses == NewRecords(fetched.value, responseDict, hasher);
      }
    }

    /**
     * `run`: fetches the problem, grades the stored answers, records the
     * verdict and saves without resetting it.  `fetched` is the problem as
     * `capa_problem` yields it, or the error it raises, which `_evaluate` does
     * not catch; `grade` stands for the problem's grading of an answer
     * dictionary, `None` when grading raised.
     */
    method Run(fetched: Result<seq<Responder>, string>, grade: map<string, string> -> Option<seq<string>>, hasher: Element -> int)
      returns (result: Result<string, RunFailure>)
      modifies this
      ensures fetched.Err? ==>
        result == Err(ProblemFailed(fetched.error)) && responses == old(responses) && verdict == old(verdict) &&
        responseDict == old(responseDict) && dictAssigned == old(dictAssigned) && saved == old(saved)
      ensures fetched.Ok? ==>
        verdict == Verdict(shouldBe, grade(old(responseDict))) && responseDict == old(responseDict) && !dictAssigned &&
        var (records, status) := SaveOutcome(old(responses), old(responseDict), old(dictAssigned), initialDict, fetched, hasher);
        responses == records && !status.ProblemUnavailable? && saved == (old(saved) || status == Stored) &&
        result == (if status == Stored then Ok(verdict) else Err(SaveFailed))
    {
      if fetched.Err? {
        return Err(ProblemFailed(fetched.error));
      }
      var grades := grade(responseDict);
      verdict := MakeVerdict(grades);
      var status := Save(true, fetched, hasher);
      result := if status == Stored then Ok(verdict) else Err(SaveFailed);
    }

    /** `_still_matches`: the record count, then each record in turn until one no longer matches. */
    method StillMatches(problem: seq<Responder>) returns (matches: bool)
      ensures matches == StructureMatches(responses, problem)
    {
      if |responses| != |problem| {
        return false;
      }
      matches := true;
      var k := 0;
      while k < |responses|
        invariant 0 <= k <= |responses|
        invariant matches && forall m :: 0 <= m < k ==> RecordMatches(responses[m], problem)
      {
        var rec := responses[k];
        var still := match FindResponder(problem, rec.stringId)
                     case None => false
                     case Some(p) => |p.inputFields| == |rec.inputs|;
        if !still {
          matches := false;
          break;
        }
        k := k + 1;
      }
    }

    /** `_still_hashes_match`: each record in turn until one hashes differently; an unknown id raises `KeyError`. */
    method StillHashesMatch(problem: seq<Responder>, hasher: Element -> int) returns (r: Result<bool, LookupError>)
      ensures r == HashesMatch(responses, problem, hasher)
    {
      var k := 0;
      while k < |responses|
        invariant 0 <= k <= |responses|
        invariant HashesMatch(responses, problem, hasher) == HashesMatch(responses[k..], problem, hasher)
      {
        assert responses[k..][1..] == responses[k + 1..];
        match FindResponder(problem, responses[k].stringId)
        case None =>
          return Err(KeyError(responses[k].stringId));
        case Some(p) =>
          if HashXml(hasher, p.xml) != responses[k].xmlHash {
            return Ok(false);
          }
        k := k + 1;
      }
      r := Ok(true);
    }

    /** `_reassign_hashes`: every record in turn takes its responder's fresh hash. */
    method ReassignHashes(problem: seq<Responder>, hasher: Element -> int) returns (ok: bool)
      modifies this
      ensures (responses, ok) == Reassigned(old(responses), problem, hasher)
      ensures verdict == old(verdict) && responseDict == old(responseDict) && dictAssigned == old(dictAssigned) && saved == old(saved)
    {
      var after;
      after, ok := ReassignAll(responses, problem, hasher);
      responses := after;
    }

    /** `_remake_dict_from_children`: the dictionary of all inputs, assigned and saved. */
    method RemakeDictFromChildren(problem: seq<Responder>, hasher: Element -> int) returns (status: SaveStatus)
      modifies this
      ensures responseDict == RemakeDict(old(responses)) && !dictAssigned && verdict == NOT_RUN && saved
      ensures (responses, status) == SaveOutcome(old(responses), RemakeDict(old(responses)), true, initialDict, Ok(problem), hasher)
      ensures status == Stored
    {
      var records := responses;
      var d := CollectAnswers(records);
      responseDict := d;
      dictAssigned := true;
      SaveRemadeDict(records, initialDict, problem, hasher);
      status := Save(false, Ok(problem), hasher);
    }

    /**
     * `_rematch`: each responder, in document order, takes the last record
     * with its hash if that record is still free, and otherwise gets a new
     * blank record; the records no responder took are deleted; then the
     * dictionary is rebuilt from the records and saved.
     */
    method Rematch(problem: seq<Responder>, hasher: Element -> int) returns (status: SaveStatus)
      modifies this
      ensures var after := Rematched(old(responses), problem, hasher);
        && responseDict == RemakeDict(after) && !dictAssigned && verdict == NOT_RUN && saved
        && (responses, status) == SaveOutcome(after, RemakeDict(after), true, initialDict, Ok(problem), hasher)
        && status == Stored
    {
      var records := responses;
      var modelDict := BuildHashIndex(records);
      var current, used, created := AssignResponders(records, problem, hasher, modelDict);
      var kept := DropUnused(records, problem, hasher, current, used);
      responses := kept + created;
      status := RemakeDictFromChildren(problem, hasher);
    }

    /**
     * `rematch_if_necessary`: nothing for an unsaved test; otherwise, with the
     * cache cleared and on, the test is rematched if its structure no longer
     * matches, its hashes are reassigned if only they differ, and the cache is
     * cleared and off again whatever happened.  `fetched` is the problem as
     * the module store yields it, or the error it raises.
     */
    method RematchIfNecessary(cache: PreviewCache, fetched: Result<seq<Responder>, string>, hasher: Element -> int)
      returns (r: Result<RematchStep, string>)
      modifies this, cache
      ensures !old(saved) ==> r == Ok(NotSaved) && responses == old(responses) && verdict == old(verdict) &&
                              responseDict == old(responseDict) && dictAssigned == old(dictAssigned) && saved == old(saved) &&
                              cache.on == old(cache.on) && cache.store == old(cache.store)
      ensures old(saved) ==> !cache.on && cache.store == map[]
      ensures old(saved) && fetched.Err? ==> r == Err(fetched.error) && responses == old(responses) && verdict == old(verdict) &&
                                             responseDict == old(responseDict) && dictAssigned == old(dictAssigned) && saved
      ensures old(saved) && fetched.Ok? ==>
        var problem := fetched.value;
        if !StructureMatches(old(responses), problem) then
          var after := Rematched(old(responses), problem, hasher);
          r == Ok(Restructured) && verdict == NOT_RUN && responseDict == RemakeDict(after) && !dictAssigned && saved &&
          responses == SaveOutcome(after, RemakeDict(after), true, initialDict, Ok(problem), hasher).0
        else if HashesMatch(old(responses), problem, hasher) == Ok(false) then
          r == Ok(Rehashed) && verdict == old(verdict) && responses == Reassigned(old(responses), problem, hasher).0 &&
          HashesMatch(responses, problem, hasher) == Ok(true) &&
          responseDict == old(responseDict) && dictAssigned == old(dictAssigned) && saved
        else
          r == Ok(Current) && verdict == old(verdict) && responses == old(responses) &&
          responseDict == old(responseDict) && dictAssigned == old(dictAssigned) && saved
    {
      if !saved {
        return Ok(NotSaved);
      }
      cache.on := true;
      cache.store := map[];
      var preview := CapaModule(cache, fetched);
      if preview.Err? {
        cache.on := false;
        cache.store := map[];
        return Err(preview.error);
      }
      var problem := preview.value.responders;
      var matches := StillMatches(problem);
      if !matches {
        var status := Rematch(problem, hasher);
        r := Ok(Restructured);
      } else {
        StructureMatchesNoKeyError(responses, problem, hasher);
        var hashes := StillHashesMatch(problem, hasher);
        if hashes == Ok(false) {
          ReassignedRefreshesHashes(responses, problem, hasher);
          var ok := ReassignHashes(problem, hasher);
          r := Ok(Rehashed);
        } else {
          r := Ok(Current);
        }
      }
      cache.on := false;
      cache.store := map[];
    }
  }
}
