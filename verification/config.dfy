/** The grid configuration value object and the validation its constructor performs. */
module Config {
  import opened Wrappers

  /** Orientation of the bands: HORIZONTAL stacks rows top to bottom, VERTICAL places
      columns left to right. A closed two-valued variant. */
  datatype LayoutMode = Horizontal | Vertical

  /** The fields of a grid configuration that the layout engine reads. `numSplits` is the
      number of rows per page (HORIZONTAL) or columns per page (VERTICAL). */
  datatype GridConfig = GridConfig(
    canvasWidth: int,
    canvasHeight: int,
    layout: LayoutMode,
    numSplits: int,
    gap: int,
    maxSize: Option<int>)

  /** The errors construction can raise, one per validation check. */
  datatype ConfigError =
    | NonPositiveCanvas
    | NonPositiveSplits
    | NegativeGap
    | NonPositiveMaxSize

  /** Position of each check in the order the constructor tests them. */
  function CheckOrder(e: ConfigError): nat
  {
    match e
    case NonPositiveCanvas => 0
    case NonPositiveSplits => 1
    case NegativeGap => 2
    case NonPositiveMaxSize => 3
  }

  /** Whether `c` fails the check that raises `e`. */
  predicate Violates(c: GridConfig, e: ConfigError)
  {
    match e
    case NonPositiveCanvas => c.canvasWidth <= 0 || c.canvasHeight <= 0
    case NonPositiveSplits => c.numSplits <= 0
    case NegativeGap => c.gap < 0
    case NonPositiveMaxSize => c.maxSize.Some? && c.maxSize.value <= 0
  }

  /** The invariants a constructed configuration holds. */
  predicate Valid(c: GridConfig)
  {
    && c.canvasWidth > 0
    && c.canvasHeight > 0
    && c.numSplits > 0
    && c.gap >= 0
    && (c.maxSize.None? || c.maxSize.value > 0)
  }

  /** Construction of a configuration: the field values are kept as given, and the
      validation raises the error of the first check that fails. */
  function NewGridConfig(
    canvasWidth: int, canvasHeight: int, layout: LayoutMode,
    numSplits: int, gap: int, maxSize: Option<int>
  ): (r: Result<GridConfig, ConfigError>)
    ensures r.Success? <==> Valid(GridConfig(canvasWidth, canvasHeight, layout, numSplits, gap, maxSize))
    ensures r.Success? ==> r.value == GridConfig(canvasWidth, canvasHeight, layout, numSplits, gap, maxSize)
    ensures r.Failure? ==>
              && Violates(GridConfig(canvasWidth, canvasHeight, layout, numSplits, gap, maxSize), r.error)
              && forall e :: CheckOrder(e) < CheckOrder(r.error) ==>
                   !Violates(GridConfig(canvasWidth, canvasHeight, layout, numSplits, gap, maxSize), e)
  {
    if canvasWidth <= 0 || canvasHeight <= 0 then Failure(NonPositiveCanvas)
    else if numSplits <= 0 then Failure(NonPositiveSplits)
    else if gap < 0 then Failure(NegativeGap)
    else if maxSize.Some? && maxSize.value <= 0 then Failure(NonPositiveMaxSize)
    else Success(GridConfig(canvasWidth, canvasHeight, layout, numSplits, gap, maxSize))
  }
}
