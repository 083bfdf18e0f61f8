/** Option and Result, and the exceptions the scraper can raise. */
module Wrappers {

  datatype Option<+T> = None | Some(value: T)

  datatype Result<+R, +E> = Success(value: R) | Failure(error: E)

  /** The exceptions of milanuncios that the model keeps, each named after its cause. */
  datatype Error =
    | NoDigits                          // ValueError: int("") when a text holds no digit
    | UnknownUnit                       // UnboundLocalError: no unit keyword matched
    | BadUnpack(parts: nat)             // ValueError: "Caduca en " split into `parts` pieces, not 2
    | InvalidRegion(region: string)     // ValueError raised by search for an unknown region
    | CategoryNotFound(category: string) // ValueError raised by subcategories
    | MissingKey(key: string)           // KeyError escaping a cache lookup
    | EmptyName                         // IndexError: name[-1] on an empty subcategory name
    | LoginFailed                       // MilAnunciosLoginError
}
