/**
 * `ServiceResult` as the application services build it: data, errors,
 * warnings and meta, `ok` exactly when there are no errors, the `success`
 * and `failure` constructors, and appending errors and warnings in place.
 * Python's lists and dicts become Dafny values, so the copies
 * `__post_init__` makes are implicit: no two results share a container.
 */
module Services {
  import opened Wrappers
  import opened Rows
  import opened Exporting

  datatype ServiceError = ServiceError(code: string, message: string, field: Option<string>)

  datatype ServiceWarning = ServiceWarning(code: string, message: string, field: Option<string>)

  /** A value the services put in `data`. */
  datatype Datum =
    | DBool(b: bool)
    | DInt(i: int)
    | DIds(ids: seq<nat>)
    | DFile(file: Download)

  type Data = map<string, Datum>

  /** The contents of a result, as a value. */
  datatype ResultView = ResultView(data: Data, errors: seq<ServiceError>, warnings: seq<ServiceWarning>, meta: Data)

  /** What `ServiceResult.success(data=data)` holds. */
  function SuccessView(data: Data): (v: ResultView)
    ensures v.errors == [] && v.data == data
  {
    ResultView(data, [], [], map[])
  }

  /** What `ServiceResult.failure([e])` holds. */
  function FailureView(e: ServiceError): (v: ResultView)
    ensures v.errors == [e] && v.data == map[]
  {
    ResultView(map[], [e], [], map[])
  }

  class ServiceResult {
    var data: Data
    var errors: seq<ServiceError>
    var warnings: seq<ServiceWarning>
    var meta: Data

    /** The dataclass constructor followed by `__post_init__`: a `None` container becomes an empty one. */
    constructor (data: Option<Data>, errors: Option<seq<ServiceError>>, warnings: Option<seq<ServiceWarning>>,
                 meta: Option<Data>)
      ensures View() == ResultView(data.GetOr(map[]), errors.GetOr([]), warnings.GetOr([]), meta.GetOr(map[]))
    {
      this.data := data.GetOr(map[]);
      this.errors := errors.GetOr([]);
      this.warnings := warnings.GetOr([]);
      this.meta := meta.GetOr(map[]);
    }

    function View(): ResultView
      reads this
    {
      ResultView(data, errors, warnings, meta)
    }

    /** `ok` */
    predicate Ok()
      reads this
    {
      |errors| == 0
    }

    /** `add_error`: `None` is ignored; an error is appended after the others. */
    method AddError(e: Option<ServiceError>)
      modifies this
      ensures e.None? ==> View() == old(View())
      ensures e.Some? ==> View() == old(View()).(errors := old(errors) + [e.value])
      ensures Ok() <==> old(Ok()) && e.None?
    {
      if e.Some? {
        errors := errors + [e.value];
      }
    }

    /** `add_warning`: `None` is ignored; a warning is appended and `ok` does not change. */
    method AddWarning(w: Option<ServiceWarning>)
      modifies this
      ensures w.None? ==> View() == old(View())
      ensures w.Some? ==> View() == old(View()).(warnings := old(warnings) + [w.value])
      ensures Ok() == old(Ok())
    {
      if w.Some? {
        warnings := warnings + [w.value];
      }
    }
  }

  /** `ServiceResult.success(data, meta)`: no errors, so `ok`. */
  method Success(data: Option<Data>, meta: Option<Data>) returns (r: ServiceResult)
    ensures fresh(r)
    ensures r.View() == ResultView(data.GetOr(map[]), [], [], meta.GetOr(map[])) && r.Ok()
  {
    r := new ServiceResult(Some(data.GetOr(map[])), Some([]), Some([]), Some(meta.GetOr(map[])));
  }

  const FailureNeedsErrors := "failure() requires at least one ServiceError"

  /**
   * `ServiceResult.failure(errors, meta)`: an empty error list raises
   * `ValueError`; otherwise the result holds those errors, no data, and is
   * not `ok`.
   */
  method Failure(errors: seq<ServiceError>, meta: Option<Data>) returns (r: Result<ServiceResult, string>)
    ensures errors == [] <==> r.Err?
    ensures r.Err? ==> r.error == FailureNeedsErrors
    ensures r.Ok? ==> fresh(r.value) && r.value.View() == ResultView(map[], errors, [], meta.GetOr(map[]))
                      && !r.value.Ok()
  {
    if errors == [] {
      return Err(FailureNeedsErrors);
    }
    var res := new ServiceResult(Some(map[]), Some(errors), Some([]), Some(meta.GetOr(map[])));
    return Ok(res);
  }
}

/**
 * The second `ServiceResult`, in the service-core package: the same four
 * containers with empty defaults and the same `ok`, but no `success` or
 * `failure` constructor and no `None` check in `add_error` and
 * `add_warning`.
 */
module ServiceCore {
  import opened Wrappers
  import opened Services

  class ServiceResult {
    var data: Data
    var errors: seq<Option<ServiceError>>
    var warnings: seq<Option<ServiceWarning>>
    var meta: Data

    /** `ServiceResult()`: every container starts empty. */
    constructor ()
      ensures data == map[] && errors == [] && warnings == [] && meta == map[]
      ensures Ok()
    {
      data := map[];
      errors := [];
      warnings := [];
      meta := map[];
    }

    /** `ok` */
    predicate Ok()
      reads this
    {
      |errors| == 0
    }

    /** `add_error` appends whatever it is given, `None` included, so afterwards the result is never `ok`. */
    method AddError(e: Option<ServiceError>)
      modifies this
      ensures errors == old(errors) + [e]
      ensures data == old(data) && warnings == old(warnings) && meta == old(meta)
      ensures !Ok()
    {
      errors := errors + [e];
    }

    /** `add_warning` appends whatever it is given, `None` included. */
    method AddWarning(w: Option<ServiceWarning>)
      modifies this
      ensures warnings == old(warnings) + [w]
      ensures data == old(data) && errors == old(errors) && meta == old(meta)
      ensures Ok() == old(Ok())
    {
      warnings := warnings + [w];
    }
  }
}
