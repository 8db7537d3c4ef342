/** Values shared by the pages: an optional value (a `find` that may come back
    `undefined`, a nullable selection) and the variants of the Badge component. */
module Ui {

  datatype Option<T> = None | Some(value: T)

  /** The `variant` prop of the Badge component. */
  datatype BadgeVariant = Default | Secondary | Outline | Destructive
}
