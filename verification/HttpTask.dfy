/** The task a `POST /compute` request becomes: what its execution calls back, and what it lets escape. */
module HttpTasks {

  datatype Response = Computed(body: string) | InternalServerError

  /** What calling something that may throw comes to. */
  datatype Result<T> = Returned(value: T) | Thrown

  /**
    The callbacks one execution makes, in order. `compute` is what the strategy does;
    `callbackThrows` and `errorCallbackThrows` say whether the callback throws when called with the
    computed response and with the error. `escapes` says whether an exception leaves `execute`:
    nothing catches what is thrown while an error is being reported.
   */
  method Execute(compute: Result<string>, callbackThrows: bool, errorCallbackThrows: bool)
    returns (calls: seq<Response>, escapes: bool)
    ensures calls != []
    ensures calls[0] == match compute case Returned(body) => Computed(body) case Thrown => InternalServerError
    ensures |calls| == 1 <==> compute.Thrown? || !callbackThrows
    ensures |calls| > 1 ==> calls == [calls[0], InternalServerError]
    ensures escapes <==> InternalServerError in calls && errorCallbackThrows
    ensures |calls| == 1 && !escapes <==> if compute.Thrown? then !errorCallbackThrows else !callbackThrows
  {
    // The try block, up to the first thing that throws.
    calls := [];
    escapes := false;
    var thrown := compute.Thrown?;
    if !thrown {
      calls := calls + [Computed(compute.value)];
      thrown := callbackThrows;
    }
    // The catch blocks: both log and report the error, outside any further try block.
    if thrown {
      calls := calls + [InternalServerError];
      escapes := errorCallbackThrows;
    }
  }
}
