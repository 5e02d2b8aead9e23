/** Swift's optionals (`String?`, `Folder?`, `parent == nil`). */
module Wrappers {
  datatype Option<+T> = None | Some(value: T)
}
