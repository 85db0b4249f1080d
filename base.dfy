/** Optional values, the exceptions the library raises, and an outcome
    type that carries either a value or the exception that was raised. */
module Base {

  datatype Option<+T> = None | Some(value: T)

  /** The exceptions the modelled code lets escape, one constructor per
      distinguishable cause. */
  datatype Error =
    | Forbidden(body: string, url: string)   // PermissionError for an HTTP 403
    | HttpError(status: int)                 // raise_for_status on a 4xx/5xx status
    | SchemaParseError(schema: string)       // an XSD file that does not load
    | XmlSyntaxError                         // a document lxml cannot parse
    | NoCopyOnText(key: string)              // elem2dict: a str value has no .copy()
    | NoSuchChild(tag: string)               // objectify attribute lookup failed
    | NoneAttribute                          // attribute access on None
    | TypeMismatch                           // str/None mixed in a join or concatenation,
                                             // or __str__ returning bytes
    | MissingKey(key: string)                // KeyError on an attribute dictionary
    | MissingSeparator                       // IndexError after str.split
    | SitePathNone                           // validate_site_path: None
    | SitePathEmpty                          // validate_site_path: only whitespace
    | MasterNotExact(path: string)           // "master" inside a longer path
    | SiteMissing(path: string)              // existence lookup did not answer 200
    | NoValidPrefix                          // no recognised site prefix
    | NoSiteContext                          // get_current_site_path without context
    | FileNotFound                           // upload of an unreadable file

  /** Either the value an operation returned or the exception it raised. */
  datatype Outcome<+T> = Ok(value: T) | Raised(error: Error)
}
