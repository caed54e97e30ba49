// A row with a status and a version, and the log of the moves that brought it there.

module StatusLogs {
  import opened Common

  datatype Move<S> = Move(from: Option<S>, to: S, version: nat)

  // Replaying the log from its creation gives exactly this status and version.
  ghost predicate Replays<S>(log: seq<Move<S>>, first: S, status: S, version: nat) {
    && 1 <= version == |log|
    && log[0].from == None && log[0].to == first
    && (forall k :: 0 <= k < |log| ==> log[k].version == k + 1)
    && (forall k :: 1 <= k < |log| ==> log[k].from == Some(log[k - 1].to))
    && log[|log| - 1].to == status
  }
}
