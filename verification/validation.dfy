/** Argument checks run eagerly, before any lazy work is built. */
module Validation {
  import opened Adt

  /** Throws IllegalArgumentException unless `value` is at least 1. */
  function RequirePositive(paramName: string, value: int): (r: Thrown<()>)
    ensures r.Returned? <==> value >= 1
    ensures r.IllegalArgument? ==> r.message == paramName + " must be >= 1"
  {
    if value < 1 then IllegalArgument(paramName + " must be >= 1") else Returned(())
  }

  /** Throws IllegalArgumentException when `value` is negative. */
  function RequireNonNegative(paramName: string, value: int): (r: Thrown<()>)
    ensures r.Returned? <==> value >= 0
    ensures r.IllegalArgument? ==> r.message == paramName + " must be >= 0"
  {
    if value < 0 then IllegalArgument(paramName + " must be >= 0") else Returned(())
  }

  /** The count given to take must not be negative. */
  function ValidateTake(count: int): (r: Thrown<()>)
    ensures r.Returned? <==> count >= 0
    ensures r.IllegalArgument? ==> r.message == "count must be >= 0"
  {
    RequireNonNegative("count", count)
  }

  /** The count given to drop must not be negative. */
  function ValidateDrop(count: int): (r: Thrown<()>)
    ensures r.Returned? <==> count >= 0
    ensures r.IllegalArgument? ==> r.message == "count must be >= 0"
  {
    RequireNonNegative("count", count)
  }

  /** The window size given to slide must be at least 1. */
  function ValidateSlide(k: int): (r: Thrown<()>)
    ensures r.Returned? <==> k >= 1
    ensures r.IllegalArgument? ==> r.message == "k must be >= 1"
  {
    RequirePositive("k", k)
  }
}
