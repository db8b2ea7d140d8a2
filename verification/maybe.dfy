/** Python's `None`-or-value, as used throughout the lambda for optional
    dictionary entries and for calls whose failure is swallowed. */
module Maybe {

  datatype Option<+T> = None | Some(value: T) {

    /** The value, or `default` when there is none (Python's `d.get(k, default)`). */
    function GetOr(default: T): T {
      match this
      case Some(v) => v
      case None => default
    }
  }

  /** An environment variable as `if os.environ.get(name):` reads it: set
      and not empty. */
  predicate EnvSet(value: Option<string>) {
    value.Some? && value.value != ""
  }
}
