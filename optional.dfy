/** A value that may be absent: a NULL column, an unset request parameter, a search that found nothing. */
module Optional {

  datatype Option<+T> = None | Some(value: T)
}
