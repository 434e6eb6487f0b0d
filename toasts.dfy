/** The toast notifications the detail pages show: a title (absent when
    the toast has only a description) and a variant. */
module Toasts {
  import opened Types

  datatype Variant = Default | Destructive

  datatype Toast = Toast(title: Option<string>, variant: Variant)
}
