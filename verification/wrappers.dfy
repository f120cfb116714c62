/** An optional value. The model uses it for what the bot may or may not
    hold: a cached watermark, a fetched trait list, a notice that could not be
    built because the code would throw. */
module Wrappers {

  datatype Option<+T> = None | Some(value: T)
}
