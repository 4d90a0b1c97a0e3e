/** The optional value a repository lookup returns (java.util.Optional). */
module Optional {

  datatype Option<+T> = None | Some(value: T)
}
