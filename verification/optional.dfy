/** Absent values of the app. A Kotlin nullable (`backStackEntry?.destination?.route`)
    is an `Option`, and so is the result of a call that may throw
    (`Screen.valueOf`, `navigate`): `None` stands for the exception. */
module Optional {

  datatype Option<+T> = None | Some(value: T) {

    /** Kotlin's elvis operator `this ?: fallback`. */
    function OrElse(fallback: T): (r: T)
      ensures Some? ==> r == value
      ensures None? ==> r == fallback
    {
      if Some? then value else fallback
    }
  }
}
