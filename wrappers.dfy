/** Option and Result, and the conditions the library raises. */
module Wrappers {

  datatype Option<+T> = None | Some(value: T)

  datatype Result<+T, +E> = Ok(value: T) | Err(error: E)

  /** The exceptions the modelled code raises, each named after its cause. */
  datatype Error =
    /** Django's FieldDoesNotExist, raised by the model metadata for an unknown field name. */
    | FieldDoesNotExist(name: string)
    /** Python's IndexError, from indexing an empty sequence or a too-long filter tuple. */
    | IndexOutOfRange
    /** Python's KeyError, from looking up a result column that no selected field has. */
    | UnknownColumn(column: string)
    /** ValueError: a staging table was requested for no models. */
    | NoModels
    /** ValueError: an insert batch mixes models with and without a primary key. */
    | MixedPks
    /** ValueError: the order field of a change-tracked insert is one of its pk fields. */
    | OrderFieldInPk
    /** ValueError: a compare field of a change-tracked insert is a pk field or the order field. */
    | CompareFieldNotAllowed(name: string)
    /** ValueError: results were requested but no statement returned any. */
    | NoQueryReturnsResults
    /** ValueError: configure was given a key that the configuration does not have. */
    | UnknownConfigOption(key: string)
}
