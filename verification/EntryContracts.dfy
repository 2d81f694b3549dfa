/** The parts of an entry contract: invariants and the sites that name them. */
module EntryContracts {
  import opened ValueTypes
  import opened Validators
  import opened RecordPaths

  datatype InvariantDefinition = InvariantDefinition(identity: Text, fields: seq<RecordField>, condition: ValidatorExpr)

  datatype Site = Site(path: Path, definition: u32)
}
