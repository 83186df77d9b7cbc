/** The state word of an index, shared by the handles of all processes. */
module IndexStates {
  datatype IndexState = Clean | Dirty | Indexing
}
