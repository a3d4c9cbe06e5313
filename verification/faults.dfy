/** Why managed content is refused, or an artefact cannot be placed or rendered. */
module Faults {

  datatype Fault =
    | RegionInsideRegion
    | EndWithoutBegin
    | MismatchedEnd
    | RegionNeverEnds
    | DuplicateTask
    | SecondBlock
    | BlockEndWithoutBegin
    | BlockNeverEnds
    | DuplicateMember
    | UnmarkedFile
    | OtherCapability
    | NoStore
    | NeedsSchedule
    | ForbidsSchedule
    | NoArtefact
    | NotAsWritten
    | StillPresent
    | StoreFailed
    | BadFileName
}
