/**
 * The create-poll form (CreatePage.tsx): the option list edits, the validity
 * rules and the shaping of the submitted arguments.
 *
 * `onCreatePoll` is asynchronous, so a submission is split at its await:
 * `BeginSubmit` runs up to the call and returns what is passed to
 * `onCreatePoll`; `FinishSubmit` runs the `catch` and `finally` parts with the
 * call's outcome as a parameter.
 */
module CreatePage {
  import opened Wrappers
  import opened Seqs
  import opened JsText

  const MinOptions: nat := 2
  const MaxOptions: nat := 5

  const QuestionRequired := "Question is required"
  const NeedTwoOptions := "At least 2 options are required"
  const OptionsNotUnique := "All options must be unique"
  const CreateFailed := "Failed to create poll. Please try again."

  /** `opt.trim()` is truthy. */
  predicate Filled(opt: string)
  {
    Trim(opt) != ""
  }

  /** `options.filter((opt) => opt.trim())`: the filled options, untrimmed, in their original order. */
  function FilledOptions(options: seq<string>): (r: seq<string>)
    ensures |r| <= |options|
    ensures forall i :: 0 <= i < |r| ==> Filled(r[i])
  {
    if options == [] then []
    else (if Filled(options[0]) then [options[0]] else []) + FilledOptions(options[1..])
  }

  /** Filtering distributes over concatenation, so it keeps the relative order of what it keeps. */
  lemma {:induction false} FilledOptionsAppend(a: seq<string>, b: seq<string>)
    ensures FilledOptions(a + b) == FilledOptions(a) + FilledOptions(b)
  {
    if a != [] {
      var head := if Filled(a[0]) then [a[0]] else [];
      assert (a + b)[0] == a[0];
      assert (a + b)[1..] == a[1..] + b;
      FilledOptionsAppend(a[1..], b);
      assert FilledOptions(a + b) == head + (FilledOptions(a[1..]) + FilledOptions(b));
      assert FilledOptions(a) == head + FilledOptions(a[1..]);
      assert head + (FilledOptions(a[1..]) + FilledOptions(b)) == (head + FilledOptions(a[1..])) + FilledOptions(b);
    } else {
      assert a + b == b;
    }
  }

  /** The filtered list holds exactly the filled options of the form. */
  lemma {:induction false} FilledOptionsMembers(options: seq<string>)
    ensures forall x :: x in FilledOptions(options) <==> x in options && Filled(x)
  {
    if options != [] {
      FilledOptionsMembers(options[1..]);
      assert options == [options[0]] + options[1..];
    }
  }

  /** The key under which options are compared: `opt.trim().toLowerCase()`. */
  function Normalize(opt: string): string
  {
    ToLower(Trim(opt))
  }

  function NormalizeAll(opts: seq<string>): (r: seq<string>)
    ensures |r| == |opts|
    ensures forall i :: 0 <= i < |opts| ==> r[i] == Normalize(opts[i])
  {
    if opts == [] then [] else [Normalize(opts[0])] + NormalizeAll(opts[1..])
  }

  /** No two options share a key. */
  predicate UniqueUnderNormalize(opts: seq<string>)
  {
    forall i, j :: 0 <= i < j < |opts| ==> Normalize(opts[i]) != Normalize(opts[j])
  }

  /**
   * `checkFormValidity`, computed as the source does: early exits, and
   * uniqueness checked by comparing the size of a `Set` of keys with the
   * number of filled options.
   */
  function CheckFormValidity(question: string, options: seq<string>): (valid: bool)
    ensures valid ==> Trim(question) != "" && |FilledOptions(options)| >= MinOptions
  {
    if Trim(question) == "" then false
    else
      var filled := FilledOptions(options);
      if |filled| < MinOptions then false
      else |Elements(NormalizeAll(filled))| == |filled|
  }

  /**
   * The form is valid exactly when the trimmed question is non-empty, at
   * least two options are non-blank, and the non-blank options are pairwise
   * distinct under trim + lower-case.
   */
  lemma CheckFormValidityMeaning(question: string, options: seq<string>)
    ensures CheckFormValidity(question, options) <==>
      && Trim(question) != ""
      && |FilledOptions(options)| >= MinOptions
      && UniqueUnderNormalize(FilledOptions(options))
  {
    var filled := FilledOptions(options);
    var keys := NormalizeAll(filled);
    DistinctIffCardinality(keys);
    assert Distinct(keys) <==> UniqueUnderNormalize(filled);
  }

  /** Fewer than two filled options never have a duplicate, so the two option messages never compete. */
  lemma ShortListsAreUnique(opts: seq<string>)
    requires |opts| < MinOptions
    ensures |Elements(NormalizeAll(opts))| == |opts|
  {
    if opts != [] {
      assert NormalizeAll(opts) == [Normalize(opts[0])];
      assert Elements(NormalizeAll(opts)) == {Normalize(opts[0])};
    }
  }

  /** `options.filter((_, i) => i !== index)`: the list without position `index`. */
  function WithoutIndex(options: seq<string>, index: int): (r: seq<string>)
    ensures 0 <= index < |options| ==> r == options[..index] + options[index + 1..]
    ensures !(0 <= index < |options|) ==> r == options
    decreases |options|
  {
    if options == [] then []
    else
      var last := |options| - 1;
      WithoutIndex(options[..last], index) + (if last == index then [] else [options[last]])
  }

  /** The error messages `validateForm` shows. */
  datatype FormErrors = FormErrors(question: Option<string>, options: Option<string>)
  {
    predicate IsEmpty()
    {
      question.None? && options.None?
    }
  }

  /** The arguments passed to `onCreatePoll`. */
  datatype CreateRequest = CreateRequest(question: string, options: seq<string>)

  /** How the awaited `onCreatePoll` call ended. */
  datatype CreateOutcome =
    | Created
    | ThrewError(message: string)  // an `Error` instance with its message
    | ThrewOther                   // anything else that was thrown

  /** The form's component state. */
  class CreateForm {
    var question: string
    var options: seq<string>
    var errors: FormErrors
    var isCreating: bool
    var error: Option<string>

    /** The add and remove handlers keep between two and five option fields. */
    ghost predicate Valid()
      reads this
    {
      MinOptions <= |options| <= MaxOptions
    }

    constructor ()
      ensures Valid()
      ensures question == "" && options == ["", ""]
      ensures errors == FormErrors(None, None) && !isCreating && error == None
    {
      question := "";
      options := ["", ""];
      errors := FormErrors(None, None);
      isCreating := false;
      error := None;
    }

    /** The question input's change handler. */
    method SetQuestion(value: string)
      modifies this`question
      ensures question == value
    {
      question := value;
    }

    /** `handleAddOption`: append an empty option when there are fewer than five. */
    method AddOption()
      requires Valid()
      modifies this`options
      ensures Valid()
      ensures options == if |old(options)| < MaxOptions then old(options) + [""] else old(options)
    {
      if |options| < MaxOptions {
        options := options + [""];
      }
    }

    /** `handleRemoveOption`: drop position `index` when there are more than two options. */
    method RemoveOption(index: int)
      requires Valid()
      modifies this`options
      ensures Valid()
      ensures |old(options)| > MinOptions && 0 <= index < |old(options)| ==>
        options == old(options)[..index] + old(options)[index + 1..]
      ensures |old(options)| <= MinOptions || !(0 <= index < |old(options)|) ==> options == old(options)
    {
      if |options| > MinOptions {
        options := WithoutIndex(options, index);
      }
    }

    /** `handleOptionChange`: replace the text at `index`; the index comes from the rendered list. */
    method OptionChange(index: nat, value: string)
      requires index < |options|
      modifies this`options
      ensures |options| == |old(options)|
      ensures options[index] == value
      ensures forall i :: 0 <= i < |options| && i != index ==> options[i] == old(options)[i]
    {
      var newOptions := options;
      newOptions := newOptions[index := value];
      options := newOptions;
    }

    /**
     * `validateForm`: builds the error messages one rule at a time, the
     * uniqueness message overriding the count message, and succeeds when
     * no message was set.
     */
    method ValidateForm() returns (ok: bool)
      modifies this`errors
      ensures ok == CheckFormValidity(question, options)
      ensures errors.question == if Trim(question) == "" then Some(QuestionRequired) else None
      ensures errors.options ==
        if !UniqueUnderNormalize(FilledOptions(options)) then Some(OptionsNotUnique)
        else if |FilledOptions(options)| < MinOptions then Some(NeedTwoOptions)
        else None
    {
      var newErrors := FormErrors(None, None);
      if Trim(question) == "" {
        newErrors := newErrors.(question := Some(QuestionRequired));
      }
      var filled := FilledOptions(options);
      if |filled| < MinOptions {
        newErrors := newErrors.(options := Some(NeedTwoOptions));
      }
      var keys := NormalizeAll(filled);
      DistinctIffCardinality(keys);
      assert Distinct(keys) <==> UniqueUnderNormalize(filled);
      if |Elements(keys)| != |filled| {
        newErrors := newErrors.(options := Some(OptionsNotUnique));
      }
      errors := newErrors;
      ok := errors.IsEmpty();
      CheckFormValidityMeaning(question, options);
    }

    /**
     * `handleSubmit` up to the awaited call: validate, and only when valid and
     * no submission is in flight, mark the form busy, clear the old error and
     * hand over the trimmed question with the filled options as typed.
     */
    method BeginSubmit() returns (request: Option<CreateRequest>)
      modifies this`errors, this`isCreating, this`error
      ensures request.Some? <==> CheckFormValidity(question, options) && !old(isCreating)
      ensures request.Some? ==>
        && request.value == CreateRequest(Trim(question), FilledOptions(options))
        && isCreating && error == None
      ensures request.None? ==> isCreating == old(isCreating) && error == old(error)
      ensures errors.question == if Trim(question) == "" then Some(QuestionRequired) else None
      ensures errors.options ==
        if !UniqueUnderNormalize(FilledOptions(options)) then Some(OptionsNotUnique)
        else if |FilledOptions(options)| < MinOptions then Some(NeedTwoOptions)
        else None
    {
      var valid := ValidateForm();
      if valid && !isCreating {
        isCreating := true;
        error := None;
        var filled := FilledOptions(options);
        request := Some(CreateRequest(Trim(question), filled));
      } else {
        request := None;
      }
    }

    /** The `catch` and `finally` parts of `handleSubmit`, once `onCreatePoll` has settled. */
    method FinishSubmit(outcome: CreateOutcome)
      requires isCreating
      modifies this`isCreating, this`error
      ensures !isCreating
      ensures error == match outcome
        case Created => old(error)
        case ThrewError(m) => Some(m)
        case ThrewOther => Some(CreateFailed)
    {
      match outcome {
        case Created =>
        case ThrewError(m) => error := Some(m);
        case ThrewOther => error := Some(CreateFailed);
      }
      isCreating := false;
    }
  }

  /**
   * What a submission sends: a question with no surrounding whitespace, two to
   * five options (at most as many as the form holds), each non-blank and
   * taken as typed from the form, pairwise distinct under trim + lower-case.
   */
  lemma SubmittedRequestShape(question: string, options: seq<string>)
    requires CheckFormValidity(question, options)
    requires |options| <= MaxOptions
    ensures var req := CreateRequest(Trim(question), FilledOptions(options));
      && req.question != ""
      && MinOptions <= |req.options| <= MaxOptions
      && (forall i :: 0 <= i < |req.options| ==> req.options[i] in options && Filled(req.options[i]))
      && UniqueUnderNormalize(req.options)
  {
    CheckFormValidityMeaning(question, options);
    FilledOptionsMembers(options);
  }
}
