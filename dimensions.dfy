/** Validation of the command-line dimensions (get_index_size). The
    program is run with either one positional argument, the common dimension
    of square matrices, or three, the dimensions l, m and n in that order.
    Here the positional arguments arrive already converted to integers; the
    argument count seen by the program is one more than their number, since
    it includes the program's own name. Instead of printing a message and
    exiting, validation returns the kind of error. */
module Dimensions {

  /** Why validation rejected the arguments. */
  datatype DimError =
    | UsageError           // argument count other than 2 or 4
    | NonPositiveDimension // one of l, m, n is zero or negative

  /** The dimensions of A (l-by-m), B (m-by-n) and C (l-by-n). */
  datatype Dims = Dims(l: int, m: int, n: int)
  {
    predicate Positive()
    {
      l > 0 && m > 0 && n > 0
    }
  }

  datatype Result = Ok(value: Dims) | Err(error: DimError)

  /** Validates the parsed positional arguments `args` (argv[1..argc-1]). */
  function GetIndexSize(args: seq<int>): (r: Result)
    // only one or three arguments are accepted, checked before anything else
    ensures r == Err(UsageError) <==> |args| != 1 && |args| != 3
    // one argument gives square matrices, three give l, m, n in order
    ensures r.Ok? && |args| == 1 ==> r.value == Dims(args[0], args[0], args[0])
    ensures r.Ok? && |args| == 3 ==> r.value == Dims(args[0], args[1], args[2])
    // accepted dimensions are strictly positive, and only a non-positive one is rejected
    ensures r.Ok? ==> r.value.Positive()
    ensures r == Err(NonPositiveDimension) <==>
      (|args| == 1 && args[0] <= 0) ||
      (|args| == 3 && (args[0] <= 0 || args[1] <= 0 || args[2] <= 0))
  {
    var argc := |args| + 1;
    if argc != 2 && argc != 4 then
      Err(UsageError)
    else
      var d := if argc == 2 then Dims(args[0], args[0], args[0]) else Dims(args[0], args[1], args[2]);
      if d.l <= 0 || d.n <= 0 || d.m <= 0 then Err(NonPositiveDimension) else Ok(d)
  }

  /** The positional arguments that name the dimensions `d` explicitly:
      validation gives a positive triple back unchanged and rejects any
      other triple as non-positive. */
  function Arguments(d: Dims): (args: seq<int>)
    ensures d.Positive() ==> GetIndexSize(args) == Ok(d)
    ensures !d.Positive() ==> GetIndexSize(args) == Err(NonPositiveDimension)
  {
    [d.l, d.m, d.n]
  }

  /** Validation accepts exactly the single positive values and the three
      arguments that spell out a positive triple; an accepted triple written
      back as three arguments gives the arguments it came from, or, for one
      argument, that argument repeated three times. */
  lemma AcceptedArguments(args: seq<int>)
    ensures GetIndexSize(args).Ok? <==>
      (|args| == 1 && args[0] > 0) || exists d: Dims :: d.Positive() && Arguments(d) == args
    ensures GetIndexSize(args).Ok? && |args| == 3 ==> Arguments(GetIndexSize(args).value) == args
    ensures GetIndexSize(args).Ok? && |args| == 1 ==> Arguments(GetIndexSize(args).value) == [args[0], args[0], args[0]]
  {
    if |args| == 3 && GetIndexSize(args).Ok? {
      var d := GetIndexSize(args).value;
      assert d.Positive() && Arguments(d) == args;
    }
  }
}
