/** Missing values. A pandas cell that holds NaN (no predecessor row, no join
    partner) is modelled as None. */
module Wrappers {
  datatype Option<+T> = None | Some(value: T)
}
