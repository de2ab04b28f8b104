/** The CSS class choices the components make, as a closed set of values. */
module Styles {
  /**
   * A colour family: `bg-green-100`/`checked:bg-green-500`, the red ones,
   * `checked:bg-gray-500`, and the neutral `bg-white border-gray-300`.
   */
  datatype Tint = Green | Red | Gray | White

  /** The row classes of a radio item: `bg-blue-50 border-l-4 ...` or `border`. */
  datatype RowStyle = Highlighted | Normal
}
