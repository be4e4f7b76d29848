/** The optional value shared by the components: a DOM lookup or attribute read
    that may find nothing (`null` in the page script). */
module Wrappers {

  datatype Option<+T> = None | Some(value: T)
}
