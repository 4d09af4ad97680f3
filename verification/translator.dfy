/**
 * The boundary with the translation service. The service itself is not
 * modelled: a handler records the request it would send and is handed the
 * service's answer as a parameter.
 */
module Translator {

  /** A call to the translation service; the source language is always left to auto-detection. */
  datatype Request = Request(text: string, target: string)

  /** What the translation service gives back for the one request a handler may make. */
  datatype Translation = Translated(text: string) | TranslationFailed
}
