/** The error envelope every failing response carries:
    `{ errors: [ { message }, ... ] }`, with `errors` an array even when
    there is a single error (controllers/internalFunctions.js). */
module Envelopes {

  /** One entry of the `errors` array. */
  datatype ErrorItem = ErrorItem(message: string)

  /** The JSON body `{ errors: [...] }`. */
  datatype ErrorBody = ErrorBody(errors: seq<ErrorItem>)

  /** One entry of express-validator's `validationResult(req).array()`: the
      field that failed and the message of the validator that failed. */
  datatype ValidationError = ValidationError(field: string, msg: string)

  /** The messages of an envelope, in order. */
  function Messages(body: ErrorBody): (ms: seq<string>)
    ensures |ms| == |body.errors|
    ensures forall i :: 0 <= i < |ms| ==> ms[i] == body.errors[i].message
    decreases |body.errors|
  {
    if body.errors == [] then []
    else [body.errors[0].message] + Messages(ErrorBody(body.errors[1..]))
  }

  /** `generateErrorMessageFromArray(errorArray)`: one `{ message: err.msg }`
      per validation error, mapped in order. */
  function FromArray(es: seq<ValidationError>): (r: ErrorBody)
    ensures |r.errors| == |es|
  {
    if es == [] then ErrorBody([])
    else ErrorBody([ErrorItem(es[0].msg)] + FromArray(es[1..]).errors)
  }

  /** `generateIndividualErrorMessage(message)`: an envelope with exactly one
      entry, carrying `message`. */
  function Individual(message: string): (r: ErrorBody)
    ensures |r.errors| == 1 && r.errors[0].message == message
  {
    ErrorBody([ErrorItem(message)])
  }

  /** The i-th entry built from a validation array carries the i-th error's
      message: the map keeps length and order. */
  lemma {:induction false} FromArrayAt(es: seq<ValidationError>, i: nat)
    requires i < |es|
    ensures FromArray(es).errors[i] == ErrorItem(es[i].msg)
  {
    if i > 0 {
      FromArrayAt(es[1..], i - 1);
    }
  }

  /** The envelope's messages are exactly the validation messages, in order. */
  lemma FromArrayMessages(es: seq<ValidationError>)
    ensures var ms := Messages(FromArray(es));
      |ms| == |es| && forall i :: 0 <= i < |es| ==> ms[i] == es[i].msg
  {
    forall i | 0 <= i < |es| ensures Messages(FromArray(es))[i] == es[i].msg {
      FromArrayAt(es, i);
    }
  }

  /** Building from a concatenation is concatenating the builds, so errors
      gathered chain by chain keep their chain order in the response. */
  lemma {:induction false} FromArrayAppend(a: seq<ValidationError>, b: seq<ValidationError>)
    ensures FromArray(a + b).errors == FromArray(a).errors + FromArray(b).errors
  {
    if a == [] {
      assert a + b == b;
    } else {
      FromArrayAppend(a[1..], b);
      assert (a + b)[1..] == a[1..] + b;
    }
  }

  /** The envelope is empty exactly when there were no validation errors. */
  lemma FromArrayEmpty(es: seq<ValidationError>)
    ensures FromArray(es).errors == [] <==> es == []
  {
  }

  /** The two builders agree on a single error: the individual builder gives
      the same body as the array builder applied to one validation error
      with that message, whatever its field. */
  lemma IndividualIsSingletonArray(field: string, message: string)
    ensures Individual(message) == FromArray([ValidationError(field, message)])
  {
    assert [ValidationError(field, message)][1..] == [];
  }
}
