/**
 * The byte constants and byte strings the squeezer compares against, all
 * written in ASCII; the comment beside each spells it out.
 */
module Names {
  import opened Wrappers
  import opened Bytes

  const SPACE: byte := 0x20          // ' '
  const LESS_THAN: byte := 0x3C      // '<'
  const GREATER_THAN: byte := 0x3E   // '>'
  const SLASH: byte := 0x2F          // '/'
  const BANG: byte := 0x21           // '!'
  const DASH: byte := 0x2D           // '-'
  const EQUALS: byte := 0x3D         // '='
  const QUOTE: byte := 0x22          // '"'
  const SEMICOLON: byte := 0x3B      // ';'

  const ESCAPED_LT: bytes := [0x26, 0x6C, 0x74, 0x3B]   // "&lt;"
  const ESCAPED_GT: bytes := [0x26, 0x67, 0x74, 0x3B]   // "&gt;"

  const TITLE: bytes := [0x74, 0x69, 0x74, 0x6C, 0x65]                       // "title"
  const SLASH_TITLE: bytes := [0x2F, 0x74, 0x69, 0x74, 0x6C, 0x65]           // "/title"
  const SLASH_HEAD: bytes := [0x2F, 0x68, 0x65, 0x61, 0x64]                  // "/head"
  const BODY: bytes := [0x62, 0x6F, 0x64, 0x79]                              // "body"
  const META: bytes := [0x6D, 0x65, 0x74, 0x61]                              // "meta"
  const SCRIPT: bytes := [0x73, 0x63, 0x72, 0x69, 0x70, 0x74]                // "script"
  const STYLE: bytes := [0x73, 0x74, 0x79, 0x6C, 0x65]                       // "style"
  const SLASH_SCRIPT: bytes := [0x2F, 0x73, 0x63, 0x72, 0x69, 0x70, 0x74]    // "/script"
  const SLASH_STYLE: bytes := [0x2F, 0x73, 0x74, 0x79, 0x6C, 0x65]           // "/style"

  const CHARSET: bytes := [0x63, 0x68, 0x61, 0x72, 0x73, 0x65, 0x74]         // "charset"
  const HTTP_EQUIV: bytes := [0x68, 0x74, 0x74, 0x70, 0x2D, 0x65, 0x71, 0x75, 0x69, 0x76]  // "http-equiv"
  const CONTENT_TYPE: bytes := [0x63, 0x6F, 0x6E, 0x74, 0x65, 0x6E, 0x74, 0x2D, 0x74, 0x79, 0x70, 0x65]  // "content-type"
  const CONTENT: bytes := [0x63, 0x6F, 0x6E, 0x74, 0x65, 0x6E, 0x74]         // "content"
  const NAME: bytes := [0x6E, 0x61, 0x6D, 0x65]                              // "name"
  const DESCRIPTION: bytes := [0x64, 0x65, 0x73, 0x63, 0x72, 0x69, 0x70, 0x74, 0x69, 0x6F, 0x6E]  // "description"
  const PROPERTY: bytes := [0x70, 0x72, 0x6F, 0x70, 0x65, 0x72, 0x74, 0x79]  // "property"
  const OG_TITLE: bytes := [0x6F, 0x67, 0x3A, 0x74, 0x69, 0x74, 0x6C, 0x65]  // "og:title"
  const OG_DESCRIPTION: bytes := [0x6F, 0x67, 0x3A, 0x64, 0x65, 0x73, 0x63, 0x72, 0x69, 0x70, 0x74, 0x69, 0x6F, 0x6E]  // "og:description"

  const UTF_8: bytes := [0x55, 0x54, 0x46, 0x2D, 0x38]                       // "UTF-8"

  /** The closing sequences the raw-text and comment scanners look for, lower-cased. */
  const CLOSE_SCRIPT: bytes := [0x3C] + SLASH_SCRIPT + [0x3E]   // "</script>"
  const CLOSE_STYLE: bytes := [0x3C] + SLASH_STYLE + [0x3E]     // "</style>"
  const CLOSE_COMMENT: bytes := [0x2D, 0x2D, 0x3E]              // "-->"

  /** The `<meta>` names are written in lower case, so lower-casing leaves them alone. */
  lemma MetaNamesLowerCase()
    ensures Lower(META) == META && Lower(CONTENT) == CONTENT
    ensures LowerOrNone(Some(DESCRIPTION)) == Some(DESCRIPTION)
  {
    LowerKeepsLowerCase(META);
    LowerKeepsLowerCase(CONTENT);
    LowerKeepsLowerCase(DESCRIPTION);
  }

  /** So are the title tags. */
  lemma TitleNamesLowerCase()
    ensures Lower(TITLE) == TITLE && Lower(SLASH_TITLE) == SLASH_TITLE
  {
    LowerKeepsLowerCase(TITLE);
    LowerKeepsLowerCase(SLASH_TITLE);
  }
}
