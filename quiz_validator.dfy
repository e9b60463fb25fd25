/** The quiz schema validator (`_validate_quiz`): keep the well-formed
    multiple-choice and short-answer entries, in input order, and require at
    least 3 and 2 of them; return exactly the first 3 and the first 2. */
module QuizValidator {
  import opened Strings
  import opened Optional
  import opened JsonRecovery

  datatype Mcq = Mcq(q: string, options: seq<Json>, answer: string)

  datatype ShortAnswer = ShortAnswer(q: string, answer: string)

  datatype Quiz = Quiz(mcq: seq<Mcq>, short: seq<ShortAnswer>)

  datatype ValidationError =
    | AttributeError        // the quiz, or a `q`/`answer` field, has the wrong type
    | TypeError             // the `mcq` or `short` value cannot be iterated
    | TooFewMcq(got: nat)   // "Quiz incomplete: Expected at least 3 MCQs"
    | TooFewShort(got: nat) // "Quiz incomplete: Expected at least 2 short-answer questions"

  /** What the loop does with one entry: skip it, keep it, or raise. */
  datatype Verdict<T> = Skip | Keep(item: T) | Raise

  /** `entry.get(key, "").strip()`: `None` stands for the AttributeError
      raised when the field is there but is not a string. */
  function StrField(entry: map<string, Json>, key: string): (r: Option<string>)
    ensures key !in entry ==> r == Some([])
    ensures key in entry && entry[key].JString? ==> r == Some(Strip(entry[key].str))
    ensures r.None? <==> key in entry && !entry[key].JString?
  {
    if key !in entry then Some([])
    else match entry[key]
      case JString(s) => Some(Strip(s))
      case _ => None
  }

  /** The elements a `for` loop visits. A string yields its characters and an
      object its keys; none of them is a dict, so for the validator both
      behave as an empty list. Other scalars are not iterable. */
  function Elements(v: Json): Option<seq<Json>> {
    match v
    case JArray(items) => Some(items)
    case JString(_) => Some([])
    case JObject(_) => Some([])
    case _ => None
  }

  /** Both text fields read without an AttributeError. */
  predicate TextFieldsTyped(m: map<string, Json>) {
    StrField(m, "q").Some? && StrField(m, "answer").Some?
  }

  /** The test of lines 471-475: a non-empty stripped question and answer,
      a list of at least two options, and the answer among them. */
  predicate McqValid(m: map<string, Json>) {
    && StrField(m, "q").Some? && StrField(m, "q").value != []
    && StrField(m, "answer").Some? && StrField(m, "answer").value != []
    && "options" in m && m["options"].JArray? && 2 <= |m["options"].items|
    && JString(StrField(m, "answer").value) in m["options"].items
  }

  /** The test of line 491: a non-empty stripped question and answer. */
  predicate ShortValid(m: map<string, Json>) {
    && StrField(m, "q").Some? && StrField(m, "q").value != []
    && StrField(m, "answer").Some? && StrField(m, "answer").value != []
  }

  /** `quiz.setdefault(key, [])` and the `for` loop over it: the entries a
      list field yields. A missing field reads as the empty list, a string or
      an object yields no entry, and any other value cannot be iterated. */
  function Listed(m: map<string, Json>, key: string): (r: Option<seq<Json>>)
    ensures key !in m ==> r == Some([])
    ensures key in m && m[key].JArray? ==> r == Some(m[key].items)
    ensures key in m && (m[key].JString? || m[key].JObject?) ==> r == Some([])
    ensures r.None? <==> key in m && (m[key].JNull? || m[key].JBool? || m[key].JNumber?)
  {
    Elements(if key in m then m[key] else JArray([]))
  }

  /** Lines 463-480 for one entry. The answer must be one of the options of
      the entry, while only the first four options are kept. */
  function CheckMcq(entry: Json): (r: Verdict<Mcq>)
    ensures !entry.JObject? ==> r == Skip
    ensures r.Raise? <==> entry.JObject? && !TextFieldsTyped(entry.fields)
    ensures r.Keep? <==> entry.JObject? && McqValid(entry.fields)
    ensures r.Keep? ==> (
      && entry.JObject?
      && var m := entry.fields;
      && "options" in m && m["options"].JArray?
      && var options := m["options"].items;
      && 2 <= |options|
      && r.item.q != [] && r.item.answer != []
      && Some(r.item.q) == StrField(m, "q") && Some(r.item.answer) == StrField(m, "answer")
      && JString(r.item.answer) in options
      && r.item.options == options[..Min(4, |options|)])
  {
    match entry
    case JObject(m) =>
      var question := StrField(m, "q");
      var options := if "options" in m then m["options"] else JArray([]);
      var answer := StrField(m, "answer");
      if question.None? || answer.None? then Raise
      else if question.value != [] && options.JArray? && |options.items| >= 2
              && answer.value != [] && JString(answer.value) in options.items then
        Keep(Mcq(question.value, options.items[..Min(4, |options.items|)], answer.value))
      else Skip
    case _ => Skip
  }

  /** Lines 485-496 for one entry. */
  function CheckShort(entry: Json): (r: Verdict<ShortAnswer>)
    ensures !entry.JObject? ==> r == Skip
    ensures r.Raise? <==> entry.JObject? && !TextFieldsTyped(entry.fields)
    ensures r.Keep? <==> entry.JObject? && ShortValid(entry.fields)
    ensures r.Keep? ==> (
      && entry.JObject?
      && r.item.q != [] && r.item.answer != []
      && Some(r.item.q) == StrField(entry.fields, "q")
      && Some(r.item.answer) == StrField(entry.fields, "answer"))
  {
    match entry
    case JObject(m) =>
      var question := StrField(m, "q");
      var answer := StrField(m, "answer");
      if question.None? || answer.None? then Raise
      else if question.value != [] && answer.value != [] then Keep(ShortAnswer(question.value, answer.value))
      else Skip
    case _ => Skip
  }

  /** What one entry contributes to the kept list. */
  function ItemOf<T>(v: Verdict<T>): seq<T> {
    if v.Keep? then [v.item] else []
  }

  /** The items of the entries `check` keeps, in input order: the list the
      loop builds when nothing raises. */
  function KeptItems<T>(entries: seq<Json>, check: Json -> Verdict<T>): (r: seq<T>)
    ensures |r| <= |entries|
  {
    if entries == [] then []
    else ItemOf(check(entries[0])) + KeptItems(entries[1..], check)
  }

  /** An item is kept exactly when some entry's verdict keeps it. */
  lemma {:induction false} KeptItemsOrigin<T>(entries: seq<Json>, check: Json -> Verdict<T>)
    ensures forall k :: 0 <= k < |entries| && check(entries[k]).Keep? ==>
      check(entries[k]).item in KeptItems(entries, check)
    ensures forall x :: x in KeptItems(entries, check) ==>
      exists k :: 0 <= k < |entries| && check(entries[k]) == Keep(x)
  {
    if entries != [] {
      KeptItemsOrigin(entries[1..], check);
      assert forall k :: 1 <= k < |entries| ==> entries[k] == entries[1..][k - 1];
    }
  }

  lemma {:induction false} KeptItemsSnoc<T>(entries: seq<Json>, e: Json, check: Json -> Verdict<T>)
    ensures KeptItems(entries + [e], check) == KeptItems(entries, check) + ItemOf(check(e))
  {
    if entries == [] {
      assert [e][1..] == [];
      assert entries + [e] == [e];
    } else {
      assert (entries + [e])[1..] == entries[1..] + [e];
      KeptItemsSnoc(entries[1..], e, check);
      AppendAssoc(ItemOf(check(entries[0])), KeptItems(entries[1..], check), ItemOf(check(e)));
    }
  }

  /** The entries kept by `check`, in input order; `None` when one of them
      raises. */
  function Accepted<T>(entries: seq<Json>, check: Json -> Verdict<T>): (r: Option<seq<T>>)
    ensures r.None? <==> exists k :: 0 <= k < |entries| && check(entries[k]).Raise?
    ensures r.Some? ==> r.value == KeptItems(entries, check)
    ensures r.Some? ==> |r.value| <= |entries|
    ensures r.Some? ==> forall i :: 0 <= i < |r.value| ==>
      exists k :: 0 <= k < |entries| && check(entries[k]) == Keep(r.value[i])
  {
    if entries == [] then Some([])
    else
      var last := entries[|entries| - 1];
      var init := entries[..|entries| - 1];
      assert entries == init + [last];
      assert forall k :: 0 <= k < |init| ==> entries[k] == init[k];
      KeptItemsSnoc(init, last, check);
      KeptItemsOrigin(entries, check);
      var before := Accepted(init, check);
      match check(last)
      case Raise => None
      case Skip =>
        if before.None? then None else Some(before.value)
      case Keep(x) =>
        if before.None? then None else Some(before.value + [x])
  }

  /** One more entry: a skipped one leaves the kept list as it is, a kept one
      is appended to it. */
  lemma AcceptedSnoc<T>(init: seq<Json>, last: Json, check: Json -> Verdict<T>)
    requires Accepted(init, check).Some?
    ensures check(last).Skip? ==> Accepted(init + [last], check) == Accepted(init, check)
    ensures check(last).Keep? ==>
      Accepted(init + [last], check) == Some(Accepted(init, check).value + [check(last).item])
  {
    var entries := init + [last];
    assert entries[..|entries| - 1] == init;
  }

  /** Acceptance distributes over concatenation: what is kept from `a` comes
      before what is kept from `b`. */
  lemma AcceptedAppend<T>(a: seq<Json>, b: seq<Json>, check: Json -> Verdict<T>)
    requires Accepted(a, check).Some? && Accepted(b, check).Some?
    ensures Accepted(a + b, check) == Some(Accepted(a, check).value + Accepted(b, check).value)
  {
    forall k | 0 <= k < |a + b|
      ensures !check((a + b)[k]).Raise?
    {
      if k < |a| {
        assert (a + b)[k] == a[k];
      } else {
        assert (a + b)[k] == b[k - |a|];
      }
    }
    KeptItemsAppend(a, b, check);
  }

  lemma {:induction false} KeptItemsAppend<T>(a: seq<Json>, b: seq<Json>, check: Json -> Verdict<T>)
    ensures KeptItems(a + b, check) == KeptItems(a, check) + KeptItems(b, check)
  {
    if a == [] {
      assert a + b == b;
    } else {
      assert (a + b)[1..] == a[1..] + b;
      assert (a + b)[0] == a[0];
      KeptItemsAppend(a[1..], b, check);
      AppendAssoc(ItemOf(check(a[0])), KeptItems(a[1..], check), KeptItems(b, check));
    }
  }

  /** One entry: kept as its item, skipped, or raising. */
  lemma AcceptedSingle<T>(e: Json, check: Json -> Verdict<T>)
    ensures match check(e)
      case Keep(x) => Accepted([e], check) == Some([x])
      case Skip => Accepted([e], check) == Some([])
      case Raise => Accepted([e], check) == None
  {
    assert [e][..0] == [] && [e][0] == e;
    assert Accepted([e][..0], check) == Some([]);
    match check(e) {
      case Keep(x) =>
        assert [] + [x] == [x];
      case Skip =>
      case Raise =>
    }
  }

  /** The validated quiz of a decoded reply, as `_validate_quiz` computes it. */
  function Validated(quiz: Json): (r: Result<Quiz, ValidationError>)
    ensures !quiz.JObject? ==> r == Err(AttributeError)
    ensures r.Ok? ==> |r.value.mcq| == 3 && |r.value.short| == 2
  {
    if !quiz.JObject? then Err(AttributeError)
    else
      var m := quiz.fields;
      match Listed(m, "mcq")
      case None => Err(TypeError)
      case Some(mcqEntries) =>
        match Accepted(mcqEntries, CheckMcq)
        case None => Err(AttributeError)
        case Some(mcqs) =>
          match Listed(m, "short")
          case None => Err(TypeError)
          case Some(shortEntries) =>
            match Accepted(shortEntries, CheckShort)
            case None => Err(AttributeError)
            case Some(shorts) =>
              if |mcqs| < 3 then Err(TooFewMcq(|mcqs|))
              else if |shorts| < 2 then Err(TooFewShort(|shorts|))
              else Ok(Quiz(mcqs[..3], shorts[..2]))
  }

  /** One of the two loops of `_validate_quiz`: append every entry `check`
      keeps, and stop at the first that raises. */
  method CollectValid<T>(entries: seq<Json>, check: Json -> Verdict<T>) returns (r: Option<seq<T>>)
    ensures r == Accepted(entries, check)
  {
    var valid: seq<T> := [];
    var i := 0;
    while i < |entries|
      invariant 0 <= i <= |entries|
      invariant forall k :: 0 <= k < i ==> !check(entries[k]).Raise?
      invariant valid == KeptItems(entries[..i], check)
    {
      assert KeptItems(entries[..i + 1], check) == valid + ItemOf(check(entries[i])) by {
        assert entries[..i + 1] == entries[..i] + [entries[i]];
        KeptItemsSnoc(entries[..i], entries[i], check);
      }
      match check(entries[i]) {
        case Raise =>
          AcceptedRaises(entries, check, i);
          return None;
        case Skip =>
        case Keep(x) =>
          valid := valid + [x];
      }
      i := i + 1;
    }
    assert Accepted(entries, check) == Some(valid) by {
      assert entries[..i] == entries;
    }
    return Some(valid);
  }

  /** `_validate_quiz`: both loops, then the two count checks. */
  method ValidateQuiz(quiz: Json) returns (r: Result<Quiz, ValidationError>)
    ensures r == Validated(quiz)
    ensures r.Ok? ==> |r.value.mcq| == 3 && |r.value.short| == 2
  {
    if !quiz.JObject? {
      return Err(AttributeError);
    }
    var m := quiz.fields;
    var mcqEntries := Listed(m, "mcq");
    if mcqEntries.None? {
      return Err(TypeError);
    }
    var validMcq := CollectValid(mcqEntries.value, CheckMcq);
    if validMcq.None? {
      return Err(AttributeError);
    }

    var shortEntries := Listed(m, "short");
    if shortEntries.None? {
      return Err(TypeError);
    }
    var validShort := CollectValid(shortEntries.value, CheckShort);
    if validShort.None? {
      return Err(AttributeError);
    }

    if |validMcq.value| < 3 {
      return Err(TooFewMcq(|validMcq.value|));
    }
    if |validShort.value| < 2 {
      return Err(TooFewShort(|validShort.value|));
    }
    return Ok(Quiz(validMcq.value[..3], validShort.value[..2]));
  }

  /** Every entry that passes the MCQ test contributes its question, first
      four options and answer to the kept list. */
  lemma ValidMcqKept(entries: seq<Json>, k: nat)
    requires k < |entries| && entries[k].JObject? && McqValid(entries[k].fields)
    ensures var m := entries[k].fields;
      var options := m["options"].items;
      Mcq(StrField(m, "q").value, options[..Min(4, |options|)], StrField(m, "answer").value)
        in KeptItems(entries, CheckMcq)
  {
    KeptItemsOrigin(entries, CheckMcq);
  }

  /** One raising entry makes the whole loop fail. */
  lemma AcceptedRaises<T>(entries: seq<Json>, check: Json -> Verdict<T>, i: nat)
    requires i < |entries| && check(entries[i]).Raise?
    ensures Accepted(entries, check).None?
  {
  }

  /** An object entry whose `q` or `answer` is present but not a string makes
      either loop fail, wherever it stands in the list. */
  lemma MistypedFieldFails(entries: seq<Json>, i: nat)
    requires i < |entries| && entries[i].JObject? && !TextFieldsTyped(entries[i].fields)
    ensures Accepted(entries, CheckMcq).None? && Accepted(entries, CheckShort).None?
  {
    AcceptedRaises(entries, CheckMcq, i);
    AcceptedRaises(entries, CheckShort, i);
  }

  /** A numeric answer in the only MCQ entry: `.strip()` raises, and the quiz
      is rejected with an AttributeError. */
  lemma NumericAnswerRejected()
    ensures Validated(JObject(map["mcq" := JArray([JObject(map["q" := JString("Q"), "answer" := JNumber(1.0)])])]))
      == Err(AttributeError)
  {
    var entry := JObject(map["q" := JString("Q"), "answer" := JNumber(1.0)]);
    assert !TextFieldsTyped(entry.fields) by {
      assert StrField(entry.fields, "answer").None?;
    }
    MistypedFieldFails([entry], 0);
  }

  /** A quiz without type errors passes exactly when at least 3 MCQs and 2
      short answers are acceptable; it is then the first 3 and the first 2
      of the kept items, in input order. */
  lemma ValidatedCardinality(m: map<string, Json>, mcqEntries: seq<Json>, shortEntries: seq<Json>)
    requires Listed(m, "mcq") == Some(mcqEntries) && Listed(m, "short") == Some(shortEntries)
    requires Accepted(mcqEntries, CheckMcq).Some? && Accepted(shortEntries, CheckShort).Some?
    ensures var mcqs := KeptItems(mcqEntries, CheckMcq);
      var shorts := KeptItems(shortEntries, CheckShort);
      && (Validated(JObject(m)).Ok? <==> |mcqs| >= 3 && |shorts| >= 2)
      && (|mcqs| < 3 ==> Validated(JObject(m)) == Err(TooFewMcq(|mcqs|)))
      && (|mcqs| >= 3 && |shorts| < 2 ==> Validated(JObject(m)) == Err(TooFewShort(|shorts|)))
      && (Validated(JObject(m)).Ok? ==> Validated(JObject(m)).value == Quiz(mcqs[..3], shorts[..2]))
  {
    ValidatedCounts(m, mcqEntries, shortEntries);
  }

  /** `Validated` on an object whose two lists raise nothing: only the two
      count checks remain. */
  lemma ValidatedCounts(m: map<string, Json>, mcqEntries: seq<Json>, shortEntries: seq<Json>)
    requires Listed(m, "mcq") == Some(mcqEntries) && Listed(m, "short") == Some(shortEntries)
    requires Accepted(mcqEntries, CheckMcq).Some? && Accepted(shortEntries, CheckShort).Some?
    ensures var mcqs := Accepted(mcqEntries, CheckMcq).value;
      var shorts := Accepted(shortEntries, CheckShort).value;
      Validated(JObject(m)) ==
        if |mcqs| < 3 then Err(TooFewMcq(|mcqs|))
        else if |shorts| < 2 then Err(TooFewShort(|shorts|))
        else Ok(Quiz(mcqs[..3], shorts[..2]))
  {
  }

  /** A quiz with no MCQ entries (the key missing, an empty list, or a string
      or object in its place) is rejected for too few MCQs once its short
      answers raise nothing. */
  lemma NoMcqRejected(m: map<string, Json>)
    requires Listed(m, "mcq") == Some([])
    requires Listed(m, "short").Some? && Accepted(Listed(m, "short").value, CheckShort).Some?
    ensures Validated(JObject(m)) == Err(TooFewMcq(0))
  {
    ValidatedCounts(m, [], Listed(m, "short").value);
  }

  /** Every MCQ of a validated quiz has a non-empty question and answer,
      two to four options, and an answer taken from the entry's full option
      list. */
  lemma ValidatedMcqWellFormed(quiz: Json, i: nat)
    requires Validated(quiz).Ok? && i < |Validated(quiz).value.mcq|
    ensures quiz.JObject? && Listed(quiz.fields, "mcq").Some?
    ensures var item := Validated(quiz).value.mcq[i];
      var entries := Listed(quiz.fields, "mcq").value;
      item.q != [] && item.answer != [] && 2 <= |item.options| <= 4
      && exists k :: (
        && 0 <= k < |entries|
        && CheckMcq(entries[k]) == Keep(item)
        && JString(item.answer) in entries[k].fields["options"].items)
  {
    var entries := ValidatedMcqEntries(quiz);
    var k := KeptFrom(entries, CheckMcq, i);
    var item := Validated(quiz).value.mcq[i];
    var entry := entries[k];
    assert CheckMcq(entry) == Keep(item);
    KeptMcqWellFormed(entry, item);
  }

  /** What keeping one MCQ entry guarantees about the item. */
  lemma KeptMcqWellFormed(entry: Json, item: Mcq)
    requires CheckMcq(entry) == Keep(item)
    ensures item.q != [] && item.answer != [] && 2 <= |item.options| <= 4
    ensures entry.JObject? && "options" in entry.fields && entry.fields["options"].JArray?
    ensures JString(item.answer) in entry.fields["options"].items
  {
  }

  /** The MCQ entries a validated quiz was built from; its MCQs are the
      first of those they keep. */
  lemma ValidatedMcqEntries(quiz: Json) returns (entries: seq<Json>)
    requires Validated(quiz).Ok?
    ensures quiz.JObject? && Listed(quiz.fields, "mcq") == Some(entries)
    ensures Accepted(entries, CheckMcq).Some? && |Accepted(entries, CheckMcq).value| >= 3
    ensures Validated(quiz).value.mcq == Accepted(entries, CheckMcq).value[..3]
  {
    entries := Listed(quiz.fields, "mcq").value;
  }

  /** Every kept item is the verdict of some entry. */
  lemma KeptFrom<T>(entries: seq<Json>, check: Json -> Verdict<T>, i: nat) returns (k: nat)
    requires Accepted(entries, check).Some? && i < |Accepted(entries, check).value|
    ensures k < |entries| && check(entries[k]) == Keep(Accepted(entries, check).value[i])
  {
    k :| 0 <= k < |entries| && check(entries[k]) == Keep(Accepted(entries, check).value[i]);
  }

  /** The answer is checked against the full option list but only the first
      four options are kept, so an accepted MCQ can carry an answer that is
      not among its options. */
  lemma AnswerMayFallOutsideKeptOptions()
    ensures var entry := JObject(map[
        "q" := JString("Q"),
        "options" := JArray([JString("a"), JString("b"), JString("c"), JString("d"), JString("e")]),
        "answer" := JString("e")]);
      CheckMcq(entry).Keep? && JString("e") !in CheckMcq(entry).item.options
  {
    var opts := [JString("a"), JString("b"), JString("c"), JString("d"), JString("e")];
    var entry := JObject(map["q" := JString("Q"), "options" := JArray(opts), "answer" := JString("e")]);
    assert Strip("Q") == "Q";
    assert Strip("e") == "e";
    assert JString("e") == opts[4];
    assert opts[..4] == [JString("a"), JString("b"), JString("c"), JString("d")];
  }
}
