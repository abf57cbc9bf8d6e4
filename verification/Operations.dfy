/** The vocabulary of a plan: stages, operations and the identifiers that key the plan graph
    (pkg/plan/operation.go, pkg/plan/operation_config.go, pkg/common/common.go). */
module Operations {

  datatype Option<+T> = None | Some(value: T)

  /** The main stages of a plan, in declaration order of `StagesOrdered`. */
  datatype Stage =
    | Init | PrePreUninstall | PrePreInstall | PreInstall | PreUninstall | Install
    | Uninstall | PostInstall | PostUninstall | PostPostInstall | PostPostUninstall | Final

  const STAGES_ORDERED: seq<Stage> :=
    [Init, PrePreUninstall, PrePreInstall, PreInstall, PreUninstall, Install,
     Uninstall, PostInstall, PostUninstall, PostPostInstall, PostPostUninstall, Final]

  /** Position of a stage in `STAGES_ORDERED`. */
  function StageIndex(s: Stage): (i: nat)
    ensures i < |STAGES_ORDERED| && STAGES_ORDERED[i] == s
  {
    match s
    case Init => 0 case PrePreUninstall => 1 case PrePreInstall => 2 case PreInstall => 3
    case PreUninstall => 4 case Install => 5 case Uninstall => 6 case PostInstall => 7
    case PostUninstall => 8 case PostPostInstall => 9 case PostPostUninstall => 10 case Final => 11
  }

  /** Where a chain step is placed: a main stage, or one of its weighted sub-stages. */
  datatype StageRef = MainStage(stage: Stage) | SubStage(stage: Stage, weight: int)

  datatype Category = CategoryMeta | CategoryResource | CategoryTrack | CategoryRelease

  datatype Status = StatusUnknown | StatusPending | StatusCompleted | StatusFailed

  datatype OpType =
    | TypeApply | TypeCreate | TypeCreateRelease | TypeDelete | TypeDeleteRelease | TypeNoop
    | TypeRecreate | TypeTrackAbsence | TypeTrackPresence | TypeTrackReadiness | TypeUpdate | TypeUpdateRelease

  const OPERATION_VERSION: nat := 1

  datatype ReleaseStatus =
    | Deployed | Uninstalled | Superseded | FailedRelease | Uninstalling
    | PendingInstall | PendingUpgrade | PendingRollback | UnknownRelease

  /** One revision of the release under management; its name and namespace are fixed. */
  datatype Release = Release(version: int, status: ReleaseStatus)

  /** The part of an operation's configuration that is visible to planning. */
  datatype Config =
    | NoopConfig(name: ConfigID)
    | ResourceConfig(resource: string)
    | ReleaseConfig(rel: Release)
    | RevisionConfig(revision: int)

  /** Identity of a configuration. A no-op's identity is a stage bracket or an arbitrary name. */
  datatype ConfigID =
    | Bracket(ref: StageRef, isEnd: bool)
    | NoopName(name: string)
    | ResourceKey(resource: string)
    | RevisionKey(revision: int)

  datatype OpID = OpID(typ: OpType, version: nat, iteration: nat, config: ConfigID)

  datatype Operation = Operation(typ: OpType, version: nat, category: Category, iteration: nat, config: Config) {
    function ID(): OpID {
      OpID(typ, version, iteration, ConfigKey(config))
    }
  }

  function ConfigKey(c: Config): ConfigID {
    match c
    case NoopConfig(name) => name
    case ResourceConfig(r) => ResourceKey(r)
    case ReleaseConfig(rel) => RevisionKey(rel.version)
    case RevisionConfig(revision) => RevisionKey(revision)
  }

  /** The no-op that opens (`isEnd == false`) or closes a stage. */
  function BracketOp(ref: StageRef, isEnd: bool): Operation {
    Operation(TypeNoop, OPERATION_VERSION, CategoryMeta, 0, NoopConfig(Bracket(ref, isEnd)))
  }

  function BracketID(ref: StageRef, isEnd: bool): OpID {
    OpID(TypeNoop, OPERATION_VERSION, 0, Bracket(ref, isEnd))
  }

  ghost predicate NoDuplicates(ids: seq<OpID>) {
    forall i, j :: 0 <= i < j < |ids| ==> ids[i] != ids[j]
  }

  function ResourceOpID(typ: OpType, iteration: nat, resource: string): OpID {
    OpID(typ, OPERATION_VERSION, iteration, ResourceKey(resource))
  }
}
