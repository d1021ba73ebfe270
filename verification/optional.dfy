/** A value that may be absent. Stands in for a missing (`undefined`) field
    of a match record; a JSON `null` in the same place is read as missing
    too, although the winner and rating tests (analyzer.js:118, 121) only
    treat `undefined` that way. */
module Optional {

  datatype Option<T> = None | Some(value: T)
}
