/** Option and Result values, and the Python exceptions the loaders can raise. */
module Wrappers {

  datatype Option<+T> = None | Some(value: T)

  /** The exceptions a loader raises on malformed input. */
  datatype PyError =
    | IndexError      // a row has fewer fields than the column read
    | KeyError        // a description lookup on a key the entity does not have
    | AttributeError  // the filename holds no `municipio/<digits>/` year

  datatype Result<+T> = Ok(value: T) | Err(error: PyError)
}

/**
 * The helpers of the loaders whose code is not part of this model
 * (`MadridUtils`, the base loaders' number parser, the title-casing of
 * descriptions). Each is a parameter: every property proved below holds
 * whatever these functions do.
 */
module Collaborators {

  datatype Env = Env(
    /** `_read_english_number`: reads an amount written as `-1234.56`. */
    readEnglishNumber: string -> int,
    /** `_spanish_titlecase`, applied to the description text. */
    spanishTitlecase: string -> string,
    /** `MadridUtils.map_institutional_code` on a 6-character section code. */
    mapInstitutionalCode: string -> string,
    /** `MadridUtils.get_institution_code` on a 3-character centre code. */
    getInstitutionCode: string -> string
  )
}
