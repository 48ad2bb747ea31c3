/** Values that may be missing: options a configuration file lacks, cells no hit has reached. */
module Options {
  datatype Option<T> = None | Some(value: T)
}
