/** The optional value used for the animation's `startTime` (null before the first frame)
    and for a missing `icon` prop. */
module Wrappers {

  datatype Option<+T> = None | Some(value: T)
}
