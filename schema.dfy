/** The verifier tree: one variant per kind, each carrying the options
    record its builders fill in (the files under src/types/verifiers), and the
    resolution of the `verifierData` a caller hands to `addItem`,
    `setGeneralType` and `createVerifier`. */
module Schema {
  import opened Wrappers
  import opened Values

  /** `ItemTypes`. */
  datatype Kind = StringKind | NumberKind | BooleanKind | ArrayKind | ObjectKind

  /** A regular expression: its `toString()` rendering, `/source/flags`
      (the text the regex message quotes), and the matcher `input.match`
      consults. The matcher is carried as a plain predicate. */
  datatype Pattern = Pattern(text: string, test: string -> bool)

  datatype StringOptions = StringOptions(
    length: Option<real>,
    maxLength: Option<real>,
    minLength: Option<real>,
    regex: Option<Pattern>,
    expectedString: Option<string>)

  /** One end of a number range. */
  datatype Endpoint = Endpoint(number: real, included: bool)

  datatype NumberRange = NumberRange(start: Endpoint, end: Endpoint)

  /** The range and divisor lists are `[]` when unset: every reader of
      them defaults an absent list to the empty one. */
  datatype NumberOptions = NumberOptions(
    expectedNumber: Option<real>,
    minValue: Option<real>,
    maxValue: Option<real>,
    positive: Option<bool>,
    negative: Option<bool>,
    zero: Option<bool>,
    integer: Option<bool>,
    safeInteger: Option<bool>,
    allowedRanges: seq<NumberRange>,
    excludedRanges: seq<NumberRange>,
    dividableBy: seq<real>)

  datatype BooleanOptions = BooleanOptions(expectedBoolean: Option<bool>)

  datatype ArrayItemOptions = ArrayItemOptions(repeatCount: Option<real>, repeated: Option<bool>)

  datatype ArrayItem = ArrayItem(verifier: Verifier, itemType: Kind, options: ArrayItemOptions)

  datatype ArrayOptions = ArrayOptions(
    maxLength: Option<real>,
    minLength: Option<real>,
    length: Option<real>,
    exact: Option<bool>,
    items: seq<ArrayItem>)

  datatype ObjectItemOptions = ObjectItemOptions(required: Option<bool>)

  datatype ObjectItem = ObjectItem(verifier: Verifier, itemType: Kind, key: string, options: ObjectItemOptions)

  datatype ObjectOptions = ObjectOptions(
    exact: Option<bool>,
    generalType: Option<Verifier>,
    items: seq<ObjectItem>,
    notAllowedKeys: seq<string>)

  /** A verifier of one kind with its options record. */
  datatype Verifier =
    | StringV(strData: StringOptions)
    | NumberV(numData: NumberOptions)
    | BooleanV(boolData: BooleanOptions)
    | ArrayV(arrData: ArrayOptions)
    | ObjectV(objData: ObjectOptions)

  function KindOf(v: Verifier): Kind {
    match v
    case StringV(_) => StringKind
    case NumberV(_) => NumberKind
    case BooleanV(_) => BooleanKind
    case ArrayV(_) => ArrayKind
    case ObjectV(_) => ObjectKind
  }

  /** The empty options records a verifier constructed without context holds. */
  const NoStringOptions := StringOptions(None, None, None, None, None)
  const NoNumberOptions := NumberOptions(None, None, None, None, None, None, None, None, [], [], [])
  const NoBooleanOptions := BooleanOptions(None)
  const NoArrayOptions := ArrayOptions(None, None, None, None, [])
  const NoObjectOptions := ObjectOptions(None, None, [], [])

  /** `new verifierClass()` for a kind. */
  function Fresh(k: Kind): (v: Verifier)
    ensures KindOf(v) == k
  {
    match k
    case StringKind => StringV(NoStringOptions)
    case NumberKind => NumberV(NoNumberOptions)
    case BooleanKind => BooleanV(NoBooleanOptions)
    case ArrayKind => ArrayV(NoArrayOptions)
    case ObjectKind => ObjectV(NoObjectOptions)
  }

  /** What a caller passes as `verifierData`: a ready verifier, or a builder
      applied to a fresh verifier of the item's kind. */
  datatype ItemData = Instance(verifier: Verifier) | Builder(build: Verifier -> Verifier)

  /** `createVerifier`: nothing gives a fresh verifier, a verifier of the
      expected kind is kept, one of another kind is refused, and a builder
      is applied to a fresh verifier. */
  function CreateVerifier(data: Option<ItemData>, k: Kind): (r: Result<Verifier, string>)
    ensures data.None? ==> r == Ok(Fresh(k))
    ensures r.Err? <==> data.Some? && data.value.Instance? && KindOf(data.value.verifier) != k
    ensures r.Err? ==> r.error == "Wrong verifier class."
    ensures data.Some? && data.value.Instance? && r.Ok? ==> r.value == data.value.verifier && KindOf(r.value) == k
    ensures data.Some? && data.value.Builder? ==> r == Ok(data.value.build(Fresh(k)))
  {
    match data
    case None => Ok(Fresh(k))
    case Some(Instance(v)) => if KindOf(v) == k then Ok(v) else Err("Wrong verifier class.")
    case Some(Builder(f)) => Ok(f(Fresh(k)))
  }

  /** The resolution `addItem` and `setGeneralType` perform inline: the same
      as `createVerifier` except that a verifier of another kind is taken
      for a builder and called, which the runtime rejects. */
  function ResolveItem(data: Option<ItemData>, k: Kind): (r: Result<Verifier, string>)
    ensures r.Ok? <==> CreateVerifier(data, k).Ok?
    ensures r.Ok? ==> r.value == CreateVerifier(data, k).value
    ensures r.Err? ==> r.error == "verifierData is not a function"
  {
    match data
    case None => Ok(Fresh(k))
    case Some(Instance(v)) => if KindOf(v) == k then Ok(v) else Err("verifierData is not a function")
    case Some(Builder(f)) => Ok(f(Fresh(k)))
  }
}
