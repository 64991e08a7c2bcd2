/** What the generator takes from code outside the model. */
module Foreign {
  import opened Base

  /** The `inflector` crate's case conversions, which the generator applies to
      operation, parameter and enumeration names, and Rust's `str::parse::<f64>`.
      An `f64` is represented by its `Display` text, so `parseF64` maps a literal of
      the dump to the text Rust prints for the parsed value, or to `None` where
      the parse fails. The model fixes none of these functions: every property
      proved holds whatever they are. */
  datatype Env = Env(
    snakeCase: string -> string,
    classCase: string -> string,
    parseF64: string -> Option<string>)
}
