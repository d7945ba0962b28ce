/** Cultures, reduced to what the localizer observes of a `CultureInfo`. */
module Cultures {

  /** A culture: its numeric locale id (LCID) and its name (`en-US`), which is also what
      `ToString()` yields. Two cultures are equal when both parts are equal. */
  datatype Culture = Culture(lcid: int, name: string)

  /** The locale id of US English, the culture every new language is seeded from. */
  const EnglishLcid: int := 1033

  /** `new CultureInfo(1033)`. */
  const English: Culture := Culture(EnglishLcid, "en-US")
}
