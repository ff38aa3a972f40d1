/** A value that may be missing: a query parameter nobody sent, an attribute
    a service does not declare, a search that found nothing. */
module Optional {

  datatype Option<+T> = None | Some(value: T)
}
