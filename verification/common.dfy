/** Small shared vocabulary of the forms and the order views. */
module Common {

  /** An optional value; `None` stands for an absent field or a failed parse. */
  datatype Option<+T> = None | Some(value: T) {

    /** The wrapped value, or `default` when there is none. */
    function GetOr(default: T): T {
      match this
      case Some(v) => v
      case None => default
    }
  }

  /** Package dimensions as both the product form and the order records
      carry them: four measures and the two unit selections. */
  datatype Dimensions = Dimensions(
    length: real,
    width: real,
    height: real,
    weight: real,
    unit: string,
    weightUnit: string)
}
