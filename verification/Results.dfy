module Results {
  datatype Option<+T> = None | Some(value: T)

  datatype Outcome<+T> = Ok(value: T) | Err(error: Failure)

  datatype Failure =
    | Syntax
    | BadNumber(text: string)
    | TrailingData
    | BadTag(name: string)
    | BadBase64
    | UnknownType(name: string)
    | Rejected(reason: string)
}
