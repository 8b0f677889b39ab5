/**
 * Which error the engine raises and what it carries.  Every `throw` of the
 * engine ends the resolution of the whole class list; the message text and
 * its colouring are not modelled, only the error and its payload.
 */
module Diagnostics {
  import opened Wrappers
  import opened Json

  /** A string-similarity score. */
  type Rating = r: real | 0.0 <= r <= 1.0

  /**
   * One entry of a suggestion list: `{target, value, rating}` from a theme
   * domain (the rating is absent in the unrated fallback list), or
   * `{target, rating}` from the class vocabulary.
   */
  datatype Candidate = Candidate(target: string, value: Option<string>, rating: Option<Rating>)

  /** The suggestion a "class not found" error carries. */
  datatype Suggested =
    | Disabled                          // suggestions are switched off in the options
    | Pick(target: string)              // one authoritative suggestion
    | Candidates(list: seq<Candidate>)  // a ranked (possibly empty) list

  datatype Error =
    | NotPlainString                                          // macro.js:3274
    | GroupAsClass                                            // macro.js:2501-2505
    | UnknownVariant(variant: string, menu: seq<(string, seq<string>)>)  // macro.js:2375-2379
    | EmptyClass(classNameRaw: string, hasVariants: bool)     // macro.js:3291
    | ClassNotFound(classNameRawNoVariants: string, suggestions: Suggested)
    | NestedTooDeep(value: Value)                             // macro.js:2657-2658
    | UnsupportedConfigValue(value: Value)                    // macro.js:2640
    | VariantsNotSupported(className: string, variants: seq<string>)
    | ImportantNotSupported(className: string)
    | NegativesNotSupported(className: string)
    | NoHandler(plugin: string)                               // macro.js:3241-3243
    | MultipleSelectors(selector: string)                     // macro.js:2533
    | MissingThemeKey(key: string)
}
