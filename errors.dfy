/** The closed set of failures the Armory helpers throw, the two revisions of
    the helper protocol, and the result types the helpers return. */
module ArmoryErrors {

  /** Every case of `ArmoryError` in the current revision. */
  datatype ArmoryError =
    | IndexOutOfBounds
    | ImageLookupFailed
    | TitleLookupFailed
    | InvalidCellType
    | InvalidValue
    | MultipleMatchesFound
    | CellNotEditable

  /** The two revisions of the helper protocol: `Current` is Armory/Armory.swift,
      `Earlier` the older copy of it in Armory/VCTest.swift. */
  datatype Revision = Current | Earlier

  /** The cases the enum of a revision declares: the earlier revision has no
      `cellNotEditable`, since it has no table-row edit actions. */
  function ErrorCases(rev: Revision): (cases: set<ArmoryError>)
    ensures CellNotEditable in cases <==> rev == Current
  {
    var earlier := {IndexOutOfBounds, ImageLookupFailed, TitleLookupFailed,
                    InvalidCellType, InvalidValue, MultipleMatchesFound};
    if rev == Current then earlier + {CellNotEditable} else earlier
  }

  /** The earlier enum has exactly six cases, the current one exactly seven,
      and the current one adds `cellNotEditable` and nothing else. */
  lemma ErrorCaseCounts()
    ensures forall rev: Revision, e: ArmoryError ::
              e in ErrorCases(rev) <==> (rev == Current || e != CellNotEditable)
    ensures |ErrorCases(Earlier)| == 6
    ensures |ErrorCases(Current)| == 7
    ensures CellNotEditable !in ErrorCases(Earlier)
    ensures ErrorCases(Current) == ErrorCases(Earlier) + {CellNotEditable}
  {
    // The enum displays are small enough for the verifier to count and
    // compare directly.
  }

  /** A Swift optional. */
  datatype Option<T> = None | Some(value: T)

  /** What a throwing helper that returns a value gives back. */
  datatype Result<T> = Ok(value: T) | Err(error: ArmoryError)

  /** What a throwing helper that returns nothing gives back: `Pass` also
      covers the helpers' silent early returns. */
  datatype Outcome = Pass | Fail(error: ArmoryError)
}
