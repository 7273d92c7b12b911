/** The notification banner both pages drive (`{ show, message, type }`). */
module Toasts {
  datatype ToastKind = Success | Failure | Info

  datatype Toast = Hidden | Shown(message: string, kind: ToastKind)
}
