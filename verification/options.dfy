/** An optional value. In this model `None` stands wherever the dataframe
    computation of the original program would produce NaN. */
module Options {

  datatype Option<+T> = None | Some(value: T)
}
