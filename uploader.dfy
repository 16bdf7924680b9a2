/**
 * `AjaxFileUploaderControl`: receives a batch of uploaded files, runs the
 * `onFileUpload` and `onAfterFileUpload` handlers on each, keeps the errors
 * of the latter in the session, and on the follow-up request fires `onError`
 * or `onSuccess`.
 *
 * The handlers are given as functions from a file name to what the call
 * does: return, or throw the exception described by a `Failure`.
 */
module Uploads {
  import opened Wrappers

  /** The record `addError` keeps of an exception: its class, message and code. */
  datatype Failure = Failure(className: string, message: string, code: int)

  /** A handler of one uploaded file, named by the file's name. */
  type Handler = string -> Outcome<Failure>

  /** One handler call of the per-file loop. */
  datatype Call = FileUpload(name: string) | AfterFileUpload(name: string)

  /** The event `handleSuccess` fires. */
  datatype Fired = OnError | OnSuccess

  /**
   * What the per-file loop did: the handler calls in order, the records it
   * appended, and the exception of `onFileUpload` that ended it, if any.
   */
  datatype Run = Run(calls: seq<Call>, recorded: seq<Failure>, escaped: Option<Failure>)

  /** One file: `onFileUpload` is not guarded, an exception of `onAfterFileUpload` is recorded. */
  function Step(r: Run, upload: Handler, after: Handler, name: string): Run {
    if upload(name).Fail? then Run(r.calls + [FileUpload(name)], r.recorded, Some(upload(name).error))
    else Run(r.calls + [FileUpload(name), AfterFileUpload(name)],
             r.recorded + (if after(name).Fail? then [after(name).error] else []), None)
  }

  /** The loop over `names`, stopped by the first exception that escapes. */
  function Uploading(upload: Handler, after: Handler, names: seq<string>): Run
    decreases |names|
  {
    if names == [] then Run([], [], None)
    else
      var r := Uploading(upload, after, names[..|names| - 1]);
      if r.escaped.Some? then r else Step(r, upload, after, names[|names| - 1])
  }

  /** Reference definition: the failures of `onAfterFileUpload` over `names`, in order. */
  function AfterFailures(after: Handler, names: seq<string>): seq<Failure> {
    if names == [] then []
    else (if after(names[0]).Fail? then [after(names[0]).error] else []) + AfterFailures(after, names[1..])
  }

  /** Reference definition: both handlers on every name, in turn. */
  function BothOnEach(names: seq<string>): (calls: seq<Call>)
    ensures |calls| == 2 * |names|
  {
    if names == [] then [] else [FileUpload(names[0]), AfterFileUpload(names[0])] + BothOnEach(names[1..])
  }

  lemma {:induction false} AfterFailuresSnoc(after: Handler, names: seq<string>, n: string)
    ensures AfterFailures(after, names + [n]) == AfterFailures(after, names) + (if after(n).Fail? then [after(n).error] else [])
  {
    if names != [] {
      assert (names + [n])[1..] == names[1..] + [n];
      AfterFailuresSnoc(after, names[1..], n);
    }
  }

  lemma {:induction false} BothOnEachSnoc(names: seq<string>, n: string)
    ensures BothOnEach(names + [n]) == BothOnEach(names) + [FileUpload(n), AfterFileUpload(n)]
  {
    if names != [] {
      assert (names + [n])[1..] == names[1..] + [n];
      BothOnEachSnoc(names[1..], n);
    }
  }

  /**
   * When `onFileUpload` returns on every file, nothing escapes, both handlers
   * run on every file in order, and exactly the exceptions of
   * `onAfterFileUpload` are recorded, in order.
   */
  lemma {:induction false} UploadingAll(upload: Handler, after: Handler, names: seq<string>)
    requires forall i :: 0 <= i < |names| ==> upload(names[i]).Pass?
    ensures Uploading(upload, after, names) == Run(BothOnEach(names), AfterFailures(after, names), None)
    decreases |names|
  {
    if names != [] {
      var init := names[..|names| - 1];
      var n := names[|names| - 1];
      assert names == init + [n];
      UploadingAll(upload, after, init);
      AfterFailuresSnoc(after, init, n);
      BothOnEachSnoc(init, n);
    }
  }

  /**
   * The loop stopped at file `i`: it is the first whose upload handler
   * throws, every earlier file had both handlers run, and no handler ran on
   * a later file.
   */
  predicate StoppedAt(upload: Handler, after: Handler, names: seq<string>, i: int) {
    && 0 <= i < |names| && upload(names[i]).Fail?
    && (forall j :: 0 <= j < i ==> upload(names[j]).Pass?)
    && Uploading(upload, after, names) ==
         Run(BothOnEach(names[..i]) + [FileUpload(names[i])], AfterFailures(after, names[..i]), Some(upload(names[i]).error))
  }

  /** An exception of `onFileUpload` ends the loop at the first file whose upload handler throws. */
  lemma {:induction false} UploadingStops(upload: Handler, after: Handler, names: seq<string>)
    requires Uploading(upload, after, names).escaped.Some?
    ensures exists i :: StoppedAt(upload, after, names, i)
    decreases |names|
  {
    var init := names[..|names| - 1];
    if Uploading(upload, after, init).escaped.Some? {
      UploadingStops(upload, after, init);
      var i :| StoppedAt(upload, after, init, i);
      assert init[..i] == names[..i] && init[i] == names[i];
      assert StoppedAt(upload, after, names, i);
    } else {
      StopsAtLast(upload, after, names);
    }
  }

  /** The prefix ran to completion and the last file's upload handler threw. */
  lemma {:induction false} StopsAtLast(upload: Handler, after: Handler, names: seq<string>)
    requires names != [] && Uploading(upload, after, names).escaped.Some?
    requires Uploading(upload, after, names[..|names| - 1]).escaped.None?
    ensures StoppedAt(upload, after, names, |names| - 1)
  {
    var init := names[..|names| - 1];
    forall j | 0 <= j < |init| ensures upload(init[j]).Pass? {
      if upload(init[j]).Fail? {
        UploadingFirstFail(upload, after, init, j);
      }
    }
    UploadingAll(upload, after, init);
    var n := names[|names| - 1];
    assert Uploading(upload, after, names) == Step(Uploading(upload, after, init), upload, after, n);
    assert upload(n).Fail?;
  }

  /** A file whose upload handler throws leaves the loop stopped. */
  lemma {:induction false} UploadingFirstFail(upload: Handler, after: Handler, names: seq<string>, i: nat)
    requires i < |names| && upload(names[i]).Fail?
    ensures Uploading(upload, after, names).escaped.Some?
    decreases |names|
  {
    var init := names[..|names| - 1];
    if i < |init| {
      assert init[i] == names[i];
      UploadingFirstFail(upload, after, init, i);
    }
  }

  class AjaxFileUploader {
    /** The session section's `errors`, None while it is unset. */
    var errors: Option<seq<Failure>>

    constructor ()
      ensures errors.None?
    {
      errors := None;
    }

    /** `addError`: the record goes at the end, an unset list counting as empty. */
    method AddError(f: Failure)
      modifies this
      ensures errors == Some(old(errors).GetOr([]) + [f])
    {
      if errors.None? {
        errors := Some([]);
      }
      errors := Some(errors.value + [f]);
    }

    /** `cleanErrors`. */
    method CleanErrors()
      modifies this
      ensures errors == Some([])
    {
      errors := Some([]);
    }

    /** `getErrors`: an unset list is initialised to the empty one. */
    method GetErrors() returns (es: seq<Failure>)
      modifies this
      ensures es == old(errors).GetOr([]) && errors == Some(es)
    {
      if errors.None? {
        errors := Some([]);
      }
      es := errors.value;
    }

    /**
     * `handleUpload` on the files the upload library accepted: the list is
     * emptied first, then each file goes through both handlers. The calls
     * are returned in order; `escaped` is the exception that leaves the
     * method. Whatever was recorded before the request is gone.
     */
    method HandleUpload(names: seq<string>, upload: Handler, after: Handler) returns (calls: seq<Call>, escaped: Option<Failure>)
      modifies this
      ensures errors.Some? && Run(calls, errors.value, escaped) == Uploading(upload, after, names)
    {
      CleanErrors();
      calls := [];
      escaped := None;
      var i := 0;
      while i < |names|
        invariant 0 <= i <= |names| && errors.Some?
        invariant Run(calls, errors.value, None) == Uploading(upload, after, names[..i])
      {
        assert names[..i + 1][..i] == names[..i];
        var name := names[i];
        calls := calls + [FileUpload(name)];
        var u := upload(name);
        if u.Fail? {
          escaped := Some(u.error);
          UploadingStopped(upload, after, names, i + 1);
          return;
        }
        calls := calls + [AfterFileUpload(name)];
        var a := after(name);
        if a.Fail? {
          AddError(a.error);
        }
        i := i + 1;
      }
      assert names[..i] == names;
    }

    /** `handleSuccess`: `onError` exactly when an error is recorded. */
    method HandleSuccess() returns (fired: Fired)
      modifies this
      ensures fired == OnError <==> |old(errors).GetOr([])| > 0
      ensures errors == Some(old(errors).GetOr([]))
    {
      var es := GetErrors();
      if |es| > 0 {
        fired := OnError;
      } else {
        fired := OnSuccess;
      }
    }
  }

  /** Once the loop has stopped on a prefix, the rest of the names change nothing. */
  lemma {:induction false} UploadingStopped(upload: Handler, after: Handler, names: seq<string>, i: nat)
    requires i <= |names| && Uploading(upload, after, names[..i]).escaped.Some?
    ensures Uploading(upload, after, names) == Uploading(upload, after, names[..i])
    decreases |names| - i
  {
    if i < |names| {
      assert names[..i + 1][..i] == names[..i];
      UploadingStopped(upload, after, names, i + 1);
    } else {
      assert names[..i] == names;
    }
  }
}
