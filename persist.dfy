// What writing one record to its table adds to the record's error list:
// an error per column whose value could not be assigned, then an error for
// an insert or update the store refused.

module Persist {
  import opened Common
  import opened Values
  import opened Records

  /**
   * The outcome the store and the column codecs give one write of one
   * record: for each column (by name) whose assignContentValue throws, the
   * exception's message; and the message of the exception the insert or
   * update itself throws, if it throws.
   */
  datatype Attempt = Attempt(failures: map<string, string>, storeFailure: Option<string>)

  /** A write in which every column is assigned and the store accepts the row. */
  const CleanWrite := Attempt(map[], None)

  /** The outcome of writing record `r` when `outcomes` lists the records
    * whose write goes wrong somewhere; any other record is written cleanly. */
  function AttemptFor<R>(outcomes: map<R, Attempt>, r: R): (a: Attempt)
    ensures r !in outcomes ==> a == CleanWrite
  {
    if r in outcomes then outcomes[r] else CleanWrite
  }

  /** The errors contentValuesForRecord adds, one per failing column, in
    * the order the columns are visited. */
  function FailureErrors(names: seq<string>, failures: map<string, string>): (errs: seq<RecordError>)
    ensures |errs| <= |names|
    decreases |names|
  {
    if names == [] then []
    else
      var n := names[|names| - 1];
      FailureErrors(names[..|names| - 1], failures) +
        (if n in failures then [RecordError(Some(n), failures[n], true)] else [])
  }

  /** The columns that do get a value, in order. */
  function Written(names: seq<string>, failures: map<string, string>): (w: seq<string>)
    ensures |w| <= |names|
    decreases |names|
  {
    if names == [] then []
    else
      var n := names[|names| - 1];
      Written(names[..|names| - 1], failures) + (if n in failures then [] else [n])
  }

  /** The error one column contributes. */
  function ColumnFailure(n: string, failures: map<string, string>): seq<RecordError> {
    if n in failures then [RecordError(Some(n), failures[n], true)] else []
  }

  /** Visiting one more column extends both sequences by that column alone. */
  lemma FailureErrorsStep(names: seq<string>, i: nat, failures: map<string, string>)
    requires i < |names|
    ensures FailureErrors(names[..i + 1], failures) == FailureErrors(names[..i], failures) + ColumnFailure(names[i], failures)
    ensures Written(names[..i + 1], failures) == Written(names[..i], failures) + (if names[i] in failures then [] else [names[i]])
  {
    assert names[..i + 1][..i] == names[..i];
  }

  /** The same step, seen from the record's error list. */
  lemma AppendFailureStep(prior: seq<RecordError>, names: seq<string>, i: nat, failures: map<string, string>)
    requires i < |names|
    ensures prior + FailureErrors(names[..i + 1], failures) == prior + FailureErrors(names[..i], failures) + ColumnFailure(names[i], failures)
    ensures Written(names[..i + 1], failures) == Written(names[..i], failures) + (if names[i] in failures then [] else [names[i]])
  {
    FailureErrorsStep(names, i, failures);
    var b, c := FailureErrors(names[..i], failures), ColumnFailure(names[i], failures);
    assert prior + (b + c) == prior + b + c;
  }

  /** No error is added exactly when no column fails. */
  lemma {:induction false} FailureErrorsEmptyIff(names: seq<string>, failures: map<string, string>)
    ensures FailureErrors(names, failures) == [] <==> forall i :: 0 <= i < |names| ==> names[i] !in failures
    decreases |names|
  {
    if names != [] {
      var init := names[..|names| - 1];
      FailureErrorsEmptyIff(init, failures);
      assert forall i :: 0 <= i < |init| ==> init[i] == names[i];
    }
  }

  /** Every error names a failing column and wraps its exception. */
  lemma {:induction false} FailureErrorsName(names: seq<string>, failures: map<string, string>)
    ensures forall k :: 0 <= k < |FailureErrors(names, failures)| ==>
              var e := FailureErrors(names, failures)[k];
              e.property.Some? && e.property.value in names && e.property.value in failures &&
              e.message == failures[e.property.value] && e.fromException
    decreases |names|
  {
    if names != [] {
      var init, n := names[..|names| - 1], names[|names| - 1];
      FailureErrorsName(init, failures);
      assert forall m :: m in init ==> m in names;
      var errs, prev := FailureErrors(names, failures), FailureErrors(init, failures);
      assert errs == prev + ColumnFailure(n, failures);
      assert forall k :: 0 <= k < |prev| ==> errs[k] == prev[k];
    }
  }

  /** A column is written exactly when it does not fail. */
  lemma {:induction false} WrittenMembers(names: seq<string>, failures: map<string, string>)
    ensures forall n :: n in Written(names, failures) <==> n in names && n !in failures
    decreases |names|
  {
    if names != [] {
      var init, n := names[..|names| - 1], names[|names| - 1];
      WrittenMembers(init, failures);
      assert names == init + [n];
    }
  }

  /** Every column is either written or named by an error. */
  lemma {:induction false} FailureErrorsCount(names: seq<string>, failures: map<string, string>)
    ensures |FailureErrors(names, failures)| + |Written(names, failures)| == |names|
    decreases |names|
  {
    if names != [] {
      FailureErrorsCount(names[..|names| - 1], failures);
    }
  }

  /** The four facts above together. */
  lemma FailureErrorsMeaning(names: seq<string>, failures: map<string, string>)
    ensures FailureErrors(names, failures) == [] <==> forall i :: 0 <= i < |names| ==> names[i] !in failures
    ensures forall k :: 0 <= k < |FailureErrors(names, failures)| ==>
              var e := FailureErrors(names, failures)[k];
              e.property.Some? && e.property.value in names && e.property.value in failures &&
              e.message == failures[e.property.value] && e.fromException
    ensures forall n :: n in Written(names, failures) <==> n in names && n !in failures
    ensures |FailureErrors(names, failures)| + |Written(names, failures)| == |names|
  {
    FailureErrorsEmptyIff(names, failures);
    FailureErrorsName(names, failures);
    WrittenMembers(names, failures);
    FailureErrorsCount(names, failures);
  }

  /** The error added when the insert or update throws. */
  function StoreErrors(a: Attempt): (errs: seq<RecordError>)
    ensures errs == [] <==> a.storeFailure.None?
    ensures errs != [] ==> errs == [RecordError(None, a.storeFailure.value, true)]
  {
    if a.storeFailure.Some? then [RecordError(None, a.storeFailure.value, true)] else []
  }

  /** Everything one insertRecord or updateRecord adds. */
  function WriteErrors(names: seq<string>, a: Attempt): seq<RecordError> {
    FailureErrors(names, a.failures) + StoreErrors(a)
  }

  /** A write succeeds exactly when the record had no errors before it, no
    * column failed and the store accepted the row; so a record carrying
    * earlier errors fails however the write goes. */
  lemma WriteSucceedsIff(prior: seq<RecordError>, names: seq<string>, a: Attempt)
    ensures prior + WriteErrors(names, a) == [] <==>
              prior == [] && a.storeFailure.None? && forall i :: 0 <= i < |names| ==> names[i] !in a.failures
    ensures prior != [] ==> prior + WriteErrors(names, a) != []
  {
    FailureErrorsMeaning(names, a.failures);
  }
}
