/** The optional value used where the source has a Swift optional (`ToDo?`, `NSPredicate?`, `Int?`). */
module Options {
  datatype Option<+T> = None | Some(value: T)
}
