/**
 * What the two tokenizers share: their states, grouped as `feed` groups
 * them, and the attribute map they build for each tag.
 */
module Tokenizer {
  import opened Wrappers
  import opened Bytes
  import opened Names

  /**
   * The `State` enum. title_squeezer.py has every one of these states;
   * squeeze.py has them all but `contentspace`, with the same values.
   */
  datatype State =
    | Content | ContentSpace
    | Tag | TagSlash | TagName | TagNameSlash
    | AttrName | AttrNameSlash | AttrValue | AttrQuote | AttrValueSlash
    | TagBang | TagBangDash | Comment | CommentDash | CommentDashDash
    | Script | ScriptTag | ScriptTagSlash | ScriptTagSlashS | ScriptTagSlashSc
    | ScriptTagSlashScr | ScriptTagSlashScri | ScriptTagSlashScrip | ScriptTagSlashScript
    | Style | StyleTag | StyleTagSlash | StyleTagSlashS | StyleTagSlashSt
    | StyleTagSlashSty | StyleTagSlashStyl | StyleTagSlashStyle

  /** `lastattrs`: lower-cased attribute name to its value, `None` when written without `=`. */
  type Attrs = map<bytes, Option<bytes>>

  /** Whether `c` ends or splits a tag name: whitespace, `<`, `>` or `/`. */
  predicate Delimits(c: byte)
  {
    IsSpace(c) || c == LESS_THAN || c == GREATER_THAN || c == SLASH
  }

  /** Whether `c` ends an attribute name: a tag-name delimiter or `=`. */
  predicate EndsAttrName(c: byte)
  {
    Delimits(c) || c == EQUALS
  }

  /** The states that read a tag name. */
  predicate InTagName(s: State)
  {
    s.TagName? || s.TagNameSlash?
  }

  /** The states that read an attribute value. */
  predicate InValue(s: State)
  {
    s.AttrValue? || s.AttrQuote? || s.AttrValueSlash?
  }

  /** The states that read an attribute. */
  predicate InAttr(s: State)
  {
    s.AttrName? || s.AttrNameSlash? || InValue(s)
  }

  /** Whether `c` is the upper- or lower-case form of the lower-case letter `lower`. */
  predicate IsLetter(c: byte, lower: byte)
    requires 0x61 <= lower <= 0x7A
  {
    c == lower - 0x20 || c == lower
  }

  /** The states inside `<script>`, one per byte of `</script>` matched. */
  predicate InScript(s: State)
  {
    s.Script? || s.ScriptTag? || s.ScriptTagSlash? || s.ScriptTagSlashS? || s.ScriptTagSlashSc?
    || s.ScriptTagSlashScr? || s.ScriptTagSlashScri? || s.ScriptTagSlashScrip? || s.ScriptTagSlashScript?
  }

  /** The states inside `<style>`, one per byte of `</style>` matched. */
  predicate InStyle(s: State)
  {
    s.Style? || s.StyleTag? || s.StyleTagSlash? || s.StyleTagSlashS? || s.StyleTagSlashSt?
    || s.StyleTagSlashSty? || s.StyleTagSlashStyl? || s.StyleTagSlashStyle?
  }

  /**
   * The `script` state after a byte that does not complete `</script>`: one
   * state further along `</script>` when the byte matches (letters in either
   * case), and back to `Script` when it does not.
   */
  function ScriptNext(s: State, c: byte): (n: State)
    requires InScript(s)
    ensures InScript(n) && !InTagName(n) && !InAttr(n)
  {
    match s
    case Script => if c == LESS_THAN then ScriptTag else Script
    case ScriptTag => if c == SLASH then ScriptTagSlash else Script
    case ScriptTagSlash => if IsLetter(c, 0x73) then ScriptTagSlashS else Script
    case ScriptTagSlashS => if IsLetter(c, 0x63) then ScriptTagSlashSc else Script
    case ScriptTagSlashSc => if IsLetter(c, 0x72) then ScriptTagSlashScr else Script
    case ScriptTagSlashScr => if IsLetter(c, 0x69) then ScriptTagSlashScri else Script
    case ScriptTagSlashScri => if IsLetter(c, 0x70) then ScriptTagSlashScrip else Script
    case ScriptTagSlashScrip => if IsLetter(c, 0x74) then ScriptTagSlashScript else Script
    case ScriptTagSlashScript => Script
  }

  /** The same for `style` and `</style>`. */
  function StyleNext(s: State, c: byte): (n: State)
    requires InStyle(s)
    ensures InStyle(n) && !InTagName(n) && !InAttr(n)
  {
    match s
    case Style => if c == LESS_THAN then StyleTag else Style
    case StyleTag => if c == SLASH then StyleTagSlash else Style
    case StyleTagSlash => if IsLetter(c, 0x73) then StyleTagSlashS else Style
    case StyleTagSlashS => if IsLetter(c, 0x74) then StyleTagSlashSt else Style
    case StyleTagSlashSt => if IsLetter(c, 0x79) then StyleTagSlashSty else Style
    case StyleTagSlashSty => if IsLetter(c, 0x6C) then StyleTagSlashStyl else Style
    case StyleTagSlashStyl => if IsLetter(c, 0x65) then StyleTagSlashStyle else Style
    case StyleTagSlashStyle => Style
  }
}
