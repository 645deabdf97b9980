/** The optional-value wrapper used for the Domain record's `extension`
    field and for the result of parsing a checkout URL. */
module Options {

  datatype Option<+T> = None | Some(value: T)

}
