/** The optional value used wherever the bot's Python code returns `None` for "nothing". */
module Wrappers {

  datatype Option<+T> = None | Some(value: T)
}
