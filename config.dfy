/** Configuration values as the PHP configuration file hands them to a
    modifier's constructor. */
module Config {
  import opened Wrappers

  /** The PHP value given as a modifier's $config: a string, a DateTime or a
      DateTimeImmutable object (as a Unix timestamp), a non-array value of
      another type (null, a number, a boolean), or an array. Arrays are
      modelled only when every key and value is a string; an array with any
      other value has no value of its own and is taken as OtherValue. */
  datatype ConfigValue =
    | StringValue(text: string)
    | DateTimeValue(timestamp: int)
    | DateTimeImmutableValue(timestamp: int)
    | ArrayValue(entries: map<string, string>)
    | OtherValue

  /** One element of the configuration array: its inner key => value pairs in
      the order they are written. */
  type ConfigItem = seq<(string, ConfigValue)>

  /** The new value of the one property a Set or Replace modifier assigns,
      and whether process() reports the event as modified. */
  datatype FieldUpdate = FieldUpdate(value: Option<string>, modified: bool)
}
