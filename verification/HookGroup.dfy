/** Flushing a group of hooks: every hook, then every forwarder, is flushed whatever the others
    return, and the first error is kept. */
module HookGroup {
  import opened Effects

  type Error = Option<string>

  function FirstError(errors: seq<Error>): Error {
    if errors == [] then None
    else if errors[0].Some? then errors[0]
    else FirstError(errors[1..])
  }

  /** hookErrors and waitErrors are what Flush of each hook and WaitDrained of each forwarder
      return; flushed and waited count the calls made. */
  method Flush(hookErrors: seq<Error>, waitErrors: seq<Error>) returns (firstErr: Error, flushed: nat, waited: nat)
    ensures flushed == |hookErrors| && waited == |waitErrors|
    ensures firstErr == FirstError(hookErrors + waitErrors)
    ensures firstErr == None <==> forall e :: e in hookErrors + waitErrors ==> e == None
  {
    firstErr, flushed, waited := None, 0, 0;
    while flushed < |hookErrors|
      invariant flushed <= |hookErrors| && firstErr == FirstError(hookErrors[..flushed])
    {
      FirstErrorSnoc(hookErrors, flushed);
      if hookErrors[flushed].Some? && firstErr == None {
        firstErr := hookErrors[flushed];
      }
      flushed := flushed + 1;
    }
    ghost var all := hookErrors + waitErrors;
    assert all[..|hookErrors|] == hookErrors[..flushed];
    while waited < |waitErrors|
      invariant waited <= |waitErrors| && firstErr == FirstError(all[..|hookErrors| + waited])
    {
      FirstErrorSnoc(all, |hookErrors| + waited);
      if waitErrors[waited].Some? && firstErr == None {
        firstErr := waitErrors[waited];
      }
      waited := waited + 1;
    }
    assert all[..|all|] == all;
    NoErrorIff(all);
  }

  lemma {:induction false} FirstErrorSnoc(errors: seq<Error>, n: nat)
    requires n < |errors|
    ensures FirstError(errors[..n + 1])
      == if FirstError(errors[..n]) == None then errors[n] else FirstError(errors[..n])
    decreases n
  {
    if n > 0 {
      assert errors[..n + 1][1..] == errors[1..][..n] && errors[..n][1..] == errors[1..][..n - 1];
      FirstErrorSnoc(errors[1..], n - 1);
    } else {
      assert errors[..1][1..] == [];
    }
  }

  /** The group's flush succeeds exactly when every part of it does. */
  lemma {:induction false} NoErrorIff(errors: seq<Error>)
    ensures FirstError(errors) == None <==> forall e :: e in errors ==> e == None
    decreases |errors|
  {
    if errors != [] {
      var rest := errors[1..];
      NoErrorIff(rest);
      assert errors[0] in errors && forall e :: e in rest ==> e in errors;
      if FirstError(errors) == None {
        forall e | e in errors ensures e == None { if e != errors[0] { assert e in rest; } }
      }
    }
  }

  lemma NoErrorSnoc(errors: seq<Error>, e: Error)
    ensures FirstError(errors + [e]) == None <==> FirstError(errors) == None && e == None
  {
    FirstErrorSnoc(errors + [e], |errors|);
    assert (errors + [e])[..|errors| + 1] == errors + [e] && (errors + [e])[..|errors|] == errors;
  }

  /** It is the one of the first part that failed. */
  lemma {:induction false} FirstErrorIsFirst(errors: seq<Error>, i: nat)
    requires i < |errors| && errors[i].Some? && forall j :: 0 <= j < i ==> errors[j] == None
    ensures FirstError(errors) == errors[i]
    decreases i
  {
    if i > 0 { FirstErrorIsFirst(errors[1..], i - 1); }
  }
}
