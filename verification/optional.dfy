/** Optional values, standing in for std::optional in the rule code. */
module Optional {

  datatype Option<+T> = None | Some(value: T)
}
