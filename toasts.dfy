/** The toast notifications the components show through `showToast(kind, message)`. */
module Toasts {
  datatype Kind = Success | Error | Info

  datatype Toast = Toast(kind: Kind, message: string)
}
