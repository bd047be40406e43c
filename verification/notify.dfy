/** The raw change record delivered by the file-system notification library:
    the absolute path of the entry and the operation flags it carries. Flag
    decoding and delivery are the library's business; only the record is kept. */
module Notify {

  datatype FileEvent = FileEvent(
    name: string,
    created: bool,
    modified: bool,
    deleted: bool,
    renamed: bool)
  {
    predicate IsCreate() { created }
    predicate IsModify() { modified }
    predicate IsDelete() { deleted }
    predicate IsRename() { renamed }
  }
}
