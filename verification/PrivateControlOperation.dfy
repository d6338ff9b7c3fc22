/** A signed control operation of a private scope, reduced to the fields the scope reads. */
module PrivateControlOperation {
  import opened Wrappers

  /** `json` is the serialized mutation, which the scope compares as a whole;
      `revokedDeviceKey` is its `deviceKey` when its type is `device.revoke`. */
  datatype Mutation = Mutation(json: string, revokedDeviceKey: Option<string>)

  datatype Operation = Operation(
    id: string,
    digest: string,
    authorDeviceKey: string,
    scopeId: string,
    kind: string,
    authorizationRevision: int,
    byteSize: int,
    parentHeadHash: Option<string>,
    mutation: Mutation,
    previousOperationIds: seq<string>,
    proposalOperationId: Option<string>)
  {
    /** The proposal id, unless it is absent or empty (both are falsy). */
    predicate HasProposal() {
      proposalOperationId.Some? && proposalOperationId.value != ""
    }

    /** The ids this operation waits for: its predecessors and its proposal. */
    function Dependencies(): set<string> {
      (set id | id in previousOperationIds) +
      (if HasProposal() then {proposalOperationId.value} else {})
    }
  }

  function Ids(operations: seq<Operation>): set<string> {
    set operation | operation in operations :: operation.id
  }

  ghost predicate UniqueIds(operations: seq<Operation>) {
    forall i, j :: 0 <= i < j < |operations| ==> operations[i].id != operations[j].id
  }

  /** The ids the operations depend on. */
  function DependencyIds(operations: seq<Operation>): set<string> {
    set operation, id | operation in operations && id in operation.Dependencies() :: id
  }
}
