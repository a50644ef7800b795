/**
 * The state machine of squeeze.py, the earlier `Squeezer`, as pure
 * functions over a record of its fields. Its tokenizer is that of
 * title_squeezer.py without the `contentspace` state; its handlers differ:
 * every `<title>` re-enters the title, every `<meta>` overwrites what it
 * declares, there are no Open Graph fields, and nothing raises.
 * The class in squeeze.dfy updates its fields in place and is proved to
 * follow these functions.
 */
module SqueezeMachine {
  import opened Wrappers
  import opened Bytes
  import opened Names
  import opened Tokenizer

  /** Every field of a `Squeezer`. */
  datatype Machine = Machine(
    state: State,
    lastTag: bytes,
    lastAttr: bytes,
    lastValue: Option<bytes>,
    lastAttrs: Option<Attrs>,
    insideTitle: bool,
    title: Option<bytes>,
    description: Option<bytes>,
    charset: Option<bytes>,
    effCharset: bytes,
    headDone: bool)

  /** `Squeezer.__init__()`: the effective charset starts as `UTF-8`. */
  function Init(): (m: Machine)
    ensures Valid(m) && m.state.Content? && m.effCharset == UTF_8
    ensures m.title.None? && m.description.None? && m.charset.None? && !m.headDone && !m.insideTitle
  {
    Machine(Content, [], [], None, None, false, None, None, None, UTF_8, false)
  }

  /**
   * What `feed` relies on without checking: a tag name is under way in the
   * name and attribute states, the attribute map exists in the attribute
   * states (so the subscript assignment in `_dispatch_attr` and the
   * `assert self.lastattrs is not None` in `_finish_tag` hold), and a value
   * exists in the value states (so `self.lastvalue += c` applies to bytes).
   * squeeze.py has no `contentspace` state.
   */
  predicate Valid(m: Machine)
  {
    && !m.state.ContentSpace?
    && (InTagName(m.state) || InAttr(m.state) ==> |m.lastTag| > 0)
    && (InAttr(m.state) ==> m.lastAttrs.Some?)
    && (InValue(m.state) ==> m.lastValue.Some?)
  }

  /** The fields the tokenizer alone owns; the event handlers never touch them. */
  predicate SameTokenizer(m: Machine, n: Machine)
  {
    m.state == n.state && m.lastTag == n.lastTag && m.lastAttr == n.lastAttr && m.lastValue == n.lastValue
  }

  /** `_dispatch_content`: text seen while inside `<title>` is appended to `title`. */
  function DispatchContent(m: Machine, content: bytes): (r: Machine)
    ensures r.(title := m.title) == m
    ensures m.title.Some? ==> r.title.Some? && m.title.value <= r.title.value
    ensures r.title == if m.insideTitle then Some(OrEmpty(m.title) + content) else m.title
  {
    if m.insideTitle then
      assert m.title.None? ==> OrEmpty(m.title) + content == content;
      m.(title := Some(if m.title.None? then content else m.title.value + content))
    else m
  }


  /**
   * `_start_tag`: a non-empty tag resets the attribute map; every `<title>`
   * enters the title, even when a title was captured before, `</title>`
   * leaves it, and `</head>` or `<body>` ends the head.
   */
  function StartTag(m: Machine, tag: bytes): (r: Machine)
    ensures |tag| == 0 ==> r == m
    ensures |tag| > 0 ==> r.lastAttrs == Some(map[])
    ensures r.(lastAttrs := m.lastAttrs, insideTitle := m.insideTitle, headDone := m.headDone) == m
    ensures Lower(tag) == TITLE ==> r.insideTitle
    ensures Lower(tag) == SLASH_TITLE ==> !r.insideTitle
    ensures r.insideTitle != m.insideTitle ==> Lower(tag) == TITLE || Lower(tag) == SLASH_TITLE
    ensures m.headDone ==> r.headDone
    ensures r.headDone && !m.headDone ==> Lower(tag) == SLASH_HEAD || Lower(tag) == BODY
  {
    if |tag| == 0 then m
    else
      var m1 := m.(lastAttrs := Some(map[]));
      var t := Lower(tag);
      if t == TITLE then m1.(insideTitle := true)
      else if t == SLASH_TITLE then m1.(insideTitle := false)
      else if t == SLASH_HEAD then m1.(headDone := true)
      else if t == BODY then m1.(headDone := true)
      else m1
  }

  /**
   * `_dispatch_attr`: records a non-empty attribute under its lower-cased
   * name. Its `assert tag == self.lasttag` and its subscript assignment on
   * `lastattrs` are the precondition.
   */
  function DispatchAttr(m: Machine, tag: bytes, attr: bytes, value: Option<bytes>): (r: Machine)
    requires |attr| > 0 ==> tag == m.lastTag && m.lastAttrs.Some?
    ensures r.(lastAttrs := m.lastAttrs) == m
    ensures r.lastAttrs.Some? <==> m.lastAttrs.Some?
    ensures |attr| > 0 ==> Lower(attr) in r.lastAttrs.value && r.lastAttrs.value[Lower(attr)] == value
    ensures |attr| > 0 ==> forall k :: k in m.lastAttrs.value && k != Lower(attr) ==>
      k in r.lastAttrs.value && r.lastAttrs.value[k] == m.lastAttrs.value[k]
  {
    if |attr| == 0 then m
    else m.(lastAttrs := Some(m.lastAttrs.value[Lower(attr) := value]))
  }

  /**
   * `_set_charset`: an absent or empty value is ignored; otherwise the
   * stripped name becomes `charset`, and `effCharset` only when it names a
   * codec.
   */
  function SetCharset(m: Machine, value: Option<bytes>, known: bytes -> bool): (r: Machine)
    ensures r.(charset := m.charset, effCharset := m.effCharset) == m
    ensures value.None? || value == Some([]) ==> r == m
    ensures value.Some? && value != Some([]) ==> r.charset == Some(Strip(value.value))
    ensures r.effCharset != m.effCharset ==> known(r.effCharset) && r.charset == Some(r.effCharset)
    ensures value.Some? && value != Some([]) && known(Strip(value.value)) ==> r.effCharset == Strip(value.value)
  {
    if value.None? || |value.value| == 0 then m
    else
      var name := Strip(value.value);
      m.(charset := Some(name), effCharset := if known(name) then name else m.effCharset)
  }

  /** One `;`-separated piece of an `http-equiv` content: `charset=<name>` sets the charset. */
  function ApplyPiece(m: Machine, item: bytes, known: bytes -> bool): (r: Machine)
    ensures r.(charset := m.charset, effCharset := m.effCharset) == m
    ensures r.effCharset != m.effCharset ==> known(r.effCharset)
  {
    match SplitOnce(item, EQUALS)
    case None => m
    case Some((key, value)) =>
      if Lower(Strip(key)) == CHARSET then SetCharset(m, Some(Strip(value)), known) else m
  }

  /** The loop over `content.split(b';')`: every piece, in order. */
  function ApplyContentType(m: Machine, pieces: seq<bytes>, known: bytes -> bool): (r: Machine)
    ensures r.(charset := m.charset, effCharset := m.effCharset) == m
    ensures r.effCharset != m.effCharset ==> known(r.effCharset)
    decreases |pieces|
  {
    if pieces == [] then m
    else ApplyContentType(ApplyPiece(m, pieces[0], known), pieces[1..], known)
  }

  /** Whether attribute `key` is present with a value that lower-cases to `v`. */
  predicate AttrIs(a: Attrs, key: bytes, v: bytes)
  {
    key in a && LowerOrNone(a[key]) == Some(v)
  }

  /** The attribute's value, `None` when it is missing (`dict.get`). */
  function Get(a: Attrs, key: bytes): Option<bytes>
  {
    if key in a then a[key] else None
  }

  /** The `http-equiv` part of a `<meta>`: a non-empty `Content-Type` content, piece by piece. */
  function ContentTypeCharset(m: Machine, a: Attrs, known: bytes -> bool): (r: Machine)
    ensures r.(charset := m.charset, effCharset := m.effCharset) == m
    ensures r.effCharset != m.effCharset ==> known(r.effCharset)
  {
    if HTTP_EQUIV in a && LowerOrNone(a[HTTP_EQUIV]) == Some(CONTENT_TYPE) then
      var content := Get(a, CONTENT);
      if content.Some? && |content.value| > 0 then
        ApplyContentType(m, Split(content.value, SEMICOLON), known)
      else m
    else m
  }

  /**
   * The charset part of a `<meta>`: the `charset` attribute and then the
   * `http-equiv` content, both applied whatever was known before.
   */
  function CharsetFromMeta(m: Machine, a: Attrs, known: bytes -> bool): (r: Machine)
    ensures r.(charset := m.charset, effCharset := m.effCharset) == m
    ensures r.effCharset != m.effCharset ==> known(r.effCharset)
  {
    ContentTypeCharset(if CHARSET in a then SetCharset(m, a[CHARSET], known) else m, a, known)
  }

  /** The `<meta>` part of `_finish_tag`: the charset, then the description, each overwriting. */
  function ExtractMeta(m: Machine, a: Attrs, known: bytes -> bool): (r: Machine)
    ensures SameTokenizer(m, r) && r.lastAttrs == m.lastAttrs
    ensures r.insideTitle == m.insideTitle && r.title == m.title && r.headDone == m.headDone
    ensures r.effCharset != m.effCharset ==> known(r.effCharset)
    ensures AttrIs(a, NAME, DESCRIPTION) && CONTENT in a ==> r.description == a[CONTENT]
    ensures !(AttrIs(a, NAME, DESCRIPTION) && CONTENT in a) ==> r.description == m.description
  {
    var m1 := CharsetFromMeta(m, a, known);
    if AttrIs(a, NAME, DESCRIPTION) && CONTENT in a then m1.(description := a[CONTENT]) else m1
  }

  /**
   * `_finish_tag`: a `<meta>` contributes its charset and description, and
   * the attribute map of a non-empty tag is discarded. Its two asserts are
   * the precondition.
   */
  function FinishTag(m: Machine, tag: bytes, known: bytes -> bool): (r: Machine)
    requires |tag| > 0 ==> tag == m.lastTag && m.lastAttrs.Some?
    ensures |tag| == 0 ==> r == m
    ensures |tag| > 0 ==> r.lastAttrs.None?
    ensures SameTokenizer(m, r)
    ensures r.insideTitle == m.insideTitle && r.title == m.title && r.headDone == m.headDone
    ensures Lower(tag) != META ==> r == m.(lastAttrs := r.lastAttrs)
    ensures r.effCharset != m.effCharset ==> known(r.effCharset)
  {
    if |tag| == 0 then m
    else (if Lower(tag) == META then ExtractMeta(m, m.lastAttrs.value, known) else m).(lastAttrs := None)
  }

  /** Where `>` leads after closing `tag`: raw text for `script` and `style`, else content. */
  function AfterTag(tag: bytes): State
  {
    if Lower(tag) == SCRIPT then Script else if Lower(tag) == STYLE then Style else Content
  }

  /** `<` in content: a new tag begins with nothing pending. */
  function BeginTag(m: Machine): Machine
  {
    m.(lastTag := [], lastAttr := [], lastValue := None, state := Tag)
  }

  /** `content`: every byte but `<` is text, whitespace included. */
  function StepContent(m: Machine, c: byte): (r: Machine)
    requires m.state.Content?
    ensures Valid(r) && r.effCharset == m.effCharset
  {
    if c == LESS_THAN then BeginTag(m) else DispatchContent(m, [c])
  }

  /** `tag`, just after `<`: stray delimiters become escaped text. */
  function StepTag(m: Machine, c: byte): (r: Machine)
    requires m.state.Tag?
    ensures Valid(r) && r.effCharset == m.effCharset
    ensures IsSpace(c) ==> r == DispatchContent(m, ESCAPED_LT + [c]).(state := Content)
    ensures c == LESS_THAN ==> r == DispatchContent(m, ESCAPED_LT)
    ensures c == GREATER_THAN ==> r == DispatchContent(m, ESCAPED_LT + ESCAPED_GT).(state := Content)
    ensures c == BANG ==> r == m.(state := TagBang)
    ensures c == SLASH ==> r == m.(state := TagSlash)
    ensures !Delimits(c) && c != BANG && c != SLASH ==> r == m.(lastTag := [c], state := TagName)
  {
    if IsSpace(c) then DispatchContent(m, ESCAPED_LT + [c]).(state := Content)
    else if c == LESS_THAN then DispatchContent(m, ESCAPED_LT)
    else if c == GREATER_THAN then DispatchContent(m, ESCAPED_LT + ESCAPED_GT).(state := Content)
    else if c == BANG then m.(state := TagBang)
    else if c == SLASH then m.(state := TagSlash)
    else m.(lastTag := [c], state := TagName)
  }

  /**
   * `tagslash`, `tagbang` and `tagbangdash`, after `</`, `<!` and `<!-`:
   * `prefix` is `/`, `!` or `!-`, and `onDash` is where a `-` leads.
   */
  function StepPrefixed(m: Machine, c: byte, prefix: bytes, onDash: Option<State>, known: bytes -> bool): (r: Machine)
    requires 0 < |prefix|
    requires onDash.Some? ==> onDash.value == TagBangDash || onDash.value == Comment
    ensures Valid(r)
    ensures r.effCharset != m.effCharset ==> known(r.effCharset)
    ensures c == LESS_THAN ==> r == DispatchContent(m, ESCAPED_LT + prefix).(state := Tag)
    ensures c == DASH && onDash.Some? ==> r == m.(state := onDash.value)
    ensures !IsSpace(c) && c != LESS_THAN && c != GREATER_THAN && !(c == DASH && onDash.Some?) ==>
      r == m.(lastTag := prefix + [c], state := TagName)
  {
    if IsSpace(c) then
      StartTag(m.(lastTag := prefix), prefix).(state := AttrName)
    else if c == LESS_THAN then
      DispatchContent(m, ESCAPED_LT + prefix).(state := Tag)
    else if c == GREATER_THAN then
      FinishTag(StartTag(m.(lastTag := prefix), prefix), prefix, known).(state := Content)
    else if c == DASH && onDash.Some? then
      m.(state := onDash.value)
    else m.(lastTag := prefix + [c], state := TagName)
  }

  /** `_start_tag(lasttag)`, then `_finish_tag(lasttag)` and the state `next`. */
  function CloseTag(m: Machine, next: State, known: bytes -> bool): (r: Machine)
    requires InTagName(m.state) && Valid(m)
    requires next == Content || next == Script || next == Style
    ensures Valid(r)
    ensures r.effCharset != m.effCharset ==> known(r.effCharset)
  {
    FinishTag(StartTag(m, m.lastTag), m.lastTag, known).(state := next)
  }

  /** `tagname`: the tag name is being read. */
  function StepTagName(m: Machine, c: byte, known: bytes -> bool): (r: Machine)
    requires m.state.TagName? && Valid(m)
    ensures Valid(r)
    ensures r.effCharset != m.effCharset ==> known(r.effCharset)
  {
    if IsSpace(c) then StartTag(m, m.lastTag).(state := AttrName)
    else if c == LESS_THAN then StartTag(m, m.lastTag).(lastTag := [], state := Tag)
    else if c == GREATER_THAN then CloseTag(m, AfterTag(m.lastTag), known)
    else if c == SLASH then m.(state := TagNameSlash)
    else m.(lastTag := m.lastTag + [c])
  }

  /** `tagnameslash`: a `/` inside or after the tag name. */
  function StepTagNameSlash(m: Machine, c: byte, known: bytes -> bool): (r: Machine)
    requires m.state.TagNameSlash? && Valid(m)
    ensures Valid(r)
    ensures r.effCharset != m.effCharset ==> known(r.effCharset)
  {
    if IsSpace(c) then
      var tag := m.lastTag + [SLASH];
      StartTag(m.(lastTag := tag), tag).(state := AttrName)
    else if c == LESS_THAN then StartTag(m, m.lastTag).(lastTag := [], state := Tag)
    else if c == GREATER_THAN then CloseTag(m, Content, known)
    else if c == SLASH then m.(lastTag := m.lastTag + [SLASH])
    else m.(lastTag := m.lastTag + [c], state := TagName)
  }

  /** What `<` does in every attribute state: the pending tag is dropped and a new one begins. */
  function Restart(m: Machine): Machine
  {
    m.(lastTag := [], lastAttr := [], lastValue := None, state := Tag)
  }

  /** The attribute map once `attr` is recorded with `value`; an empty name records nothing. */
  function WithAttr(m: Machine, attr: bytes, value: Option<bytes>): Option<Attrs>
    requires m.lastAttrs.Some?
  {
    if |attr| == 0 then m.lastAttrs else Some(m.lastAttrs.value[Lower(attr) := value])
  }

  /** `attrname`: an attribute name is being read. */
  function StepAttrName(m: Machine, c: byte, known: bytes -> bool): (r: Machine)
    requires m.state.AttrName? && Valid(m)
    ensures Valid(r)
    ensures r.effCharset != m.effCharset ==> known(r.effCharset)
    ensures IsSpace(c) ==> r == m.(lastAttrs := WithAttr(m, m.lastAttr, None)).(lastAttr := [], lastValue := None, state := AttrName)
    ensures c == LESS_THAN ==> r == Restart(m.(lastAttrs := WithAttr(m, m.lastAttr, None)))
    ensures !EndsAttrName(c) ==> r == m.(lastAttr := m.lastAttr + [c])
    ensures c == SLASH ==> r == m.(state := AttrNameSlash)
    ensures c == EQUALS ==> r == m.(lastValue := Some([]), state := AttrValue)
  {
    if IsSpace(c) then
      DispatchAttr(m, m.lastTag, m.lastAttr, None).(lastAttr := [], lastValue := None)
    else if c == LESS_THAN then
      Restart(DispatchAttr(m, m.lastTag, m.lastAttr, None))
    else if c == GREATER_THAN then
      var m1 := DispatchAttr(m, m.lastTag, m.lastAttr, None);
      FinishTag(m1, m.lastTag, known).(state := AfterTag(m.lastTag))
    else if c == SLASH then m.(state := AttrNameSlash)
    else if c == EQUALS then m.(lastValue := Some([]), state := AttrValue)
    else m.(lastAttr := m.lastAttr + [c])
  }

  /** `>` records the pending attribute and finishes the tag. */
  lemma StepAttrNameCloses(m: Machine, known: bytes -> bool)
    requires m.state.AttrName? && Valid(m)
    ensures StepAttrName(m, GREATER_THAN, known) == FinishTag(m.(lastAttrs := WithAttr(m, m.lastAttr, None)), m.lastTag, known).(state := AfterTag(m.lastTag))
  {
  }

  /** `attrnameslash`: a `/` inside or after an attribute name. */
  function StepAttrNameSlash(m: Machine, c: byte, known: bytes -> bool): (r: Machine)
    requires m.state.AttrNameSlash? && Valid(m)
    ensures Valid(r)
    ensures r.effCharset != m.effCharset ==> known(r.effCharset)
    ensures IsSpace(c) ==> r == m.(lastAttrs := WithAttr(m, m.lastAttr + [SLASH], None), lastAttr := [], lastValue := None)
    ensures c == LESS_THAN ==> r == Restart(m.(lastAttrs := WithAttr(m, m.lastAttr, None)))
    ensures !EndsAttrName(c) ==> r == m.(lastAttr := m.lastAttr + [c], state := AttrName)
    ensures c == SLASH ==> r == m.(lastAttr := m.lastAttr + [SLASH])
    ensures c == EQUALS ==> r == m.(lastValue := Some([]), state := AttrValue)
  {
    if IsSpace(c) then
      DispatchAttr(m, m.lastTag, m.lastAttr + [SLASH], None).(lastAttr := [], lastValue := None)
    else if c == LESS_THAN then
      Restart(DispatchAttr(m, m.lastTag, m.lastAttr, None))
    else if c == GREATER_THAN then
      var m1 := DispatchAttr(m, m.lastTag, m.lastAttr, None);
      FinishTag(m1, m.lastTag, known).(state := Content)
    else if c == SLASH then m.(lastAttr := m.lastAttr + [SLASH])
    else if c == EQUALS then m.(lastValue := Some([]), state := AttrValue)
    else m.(lastAttr := m.lastAttr + [c], state := AttrName)
  }

  /** `>` records the pending attribute and finishes the tag. */
  lemma StepAttrNameSlashCloses(m: Machine, known: bytes -> bool)
    requires m.state.AttrNameSlash? && Valid(m)
    ensures StepAttrNameSlash(m, GREATER_THAN, known) == FinishTag(m.(lastAttrs := WithAttr(m, m.lastAttr, None)), m.lastTag, known).(state := Content)
  {
  }

  /** `attrvalue`: an unquoted value, or what follows a closing quote. */
  function StepAttrValue(m: Machine, c: byte, known: bytes -> bool): (r: Machine)
    requires m.state.AttrValue? && Valid(m)
    ensures Valid(r)
    ensures r.effCharset != m.effCharset ==> known(r.effCharset)
    ensures IsSpace(c) ==> r == m.(lastAttrs := WithAttr(m, m.lastAttr, m.lastValue)).(lastAttr := [], lastValue := None, state := AttrName)
    ensures c == LESS_THAN ==> r == Restart(m.(lastAttrs := WithAttr(m, m.lastAttr, m.lastValue)))
    ensures !Delimits(c) && c != QUOTE ==> r == m.(lastValue := Some(m.lastValue.value + [c]))
    ensures c == SLASH ==> r == m.(state := AttrValueSlash)
    ensures c == QUOTE ==> r == m.(state := AttrQuote)
  {
    if IsSpace(c) then
      DispatchAttr(m, m.lastTag, m.lastAttr, m.lastValue).(lastAttr := [], lastValue := None, state := AttrName)
    else if c == LESS_THAN then
      Restart(DispatchAttr(m, m.lastTag, m.lastAttr, m.lastValue))
    else if c == GREATER_THAN then
      var m1 := DispatchAttr(m, m.lastTag, m.lastAttr, m.lastValue);
      FinishTag(m1, m.lastTag, known).(state := AfterTag(m.lastTag))
    else if c == SLASH then m.(state := AttrValueSlash)
    else if c == QUOTE then m.(state := AttrQuote)
    else m.(lastValue := Some(m.lastValue.value + [c]))
  }

  /** `>` records the pending attribute and finishes the tag. */
  lemma StepAttrValueCloses(m: Machine, known: bytes -> bool)
    requires m.state.AttrValue? && Valid(m)
    ensures StepAttrValue(m, GREATER_THAN, known) == FinishTag(m.(lastAttrs := WithAttr(m, m.lastAttr, m.lastValue)), m.lastTag, known).(state := AfterTag(m.lastTag))
  {
  }

  /** `attrquote`: between double quotes every byte but `"` belongs to the value. */
  function StepAttrQuote(m: Machine, c: byte): (r: Machine)
    requires m.state.AttrQuote? && Valid(m)
    ensures Valid(r) && r.effCharset == m.effCharset
  {
    if c == QUOTE then m.(state := AttrValue)
    else m.(lastValue := Some(m.lastValue.value + [c]))
  }

  /** `attrvalueslash`: a `/` inside or after an attribute value. */
  function StepAttrValueSlash(m: Machine, c: byte, known: bytes -> bool): (r: Machine)
    requires m.state.AttrValueSlash? && Valid(m)
    ensures Valid(r)
    ensures r.effCharset != m.effCharset ==> known(r.effCharset)
    ensures IsSpace(c) ==> r == m.(lastAttrs := WithAttr(m, m.lastAttr, Some(m.lastValue.value + [SLASH]))).(lastAttr := [], lastValue := None, state := AttrName)
    ensures c == LESS_THAN ==> r == Restart(m.(lastAttrs := WithAttr(m, m.lastAttr, m.lastValue)))
    ensures !Delimits(c) && c != QUOTE ==> r == m.(lastValue := Some(m.lastValue.value + [c]), state := AttrValue)
    ensures c == SLASH ==> r == m.(lastValue := Some(m.lastValue.value + [SLASH]))
    ensures c == QUOTE ==> r == m.(state := AttrQuote)
  {
    if IsSpace(c) then
      var value := Some(m.lastValue.value + [SLASH]);
      DispatchAttr(m, m.lastTag, m.lastAttr, value).(lastAttr := [], lastValue := None, state := AttrName)
    else if c == LESS_THAN then
      Restart(DispatchAttr(m, m.lastTag, m.lastAttr, m.lastValue))
    else if c == GREATER_THAN then
      var m1 := DispatchAttr(m, m.lastTag, m.lastAttr, m.lastValue);
      FinishTag(m1, m.lastTag, known).(state := AfterTag(m.lastTag))
    else if c == SLASH then m.(lastValue := Some(m.lastValue.value + [SLASH]))
    else if c == QUOTE then m.(state := AttrQuote)
    else m.(lastValue := Some(m.lastValue.value + [c]), state := AttrValue)
  }

  /** `>` records the pending attribute and finishes the tag. */
  lemma StepAttrValueSlashCloses(m: Machine, known: bytes -> bool)
    requires m.state.AttrValueSlash? && Valid(m)
    ensures StepAttrValueSlash(m, GREATER_THAN, known) == FinishTag(m.(lastAttrs := WithAttr(m, m.lastAttr, m.lastValue)), m.lastTag, known).(state := AfterTag(m.lastTag))
  {
  }

  /** `comment`, `commentdash`, `commentdashdash`: only `-->` ends a comment. */
  function StepComment(m: Machine, c: byte): (r: Machine)
    requires m.state.Comment? || m.state.CommentDash? || m.state.CommentDashDash?
    ensures Valid(r) && r.effCharset == m.effCharset
  {
    match m.state
    case Comment => if c == DASH then m.(state := CommentDash) else m
    case CommentDash => m.(state := if c == DASH then CommentDashDash else Comment)
    case CommentDashDash => m.(state := if c == GREATER_THAN then Content else Comment)
  }

  /**
   * The end of a raw-text element: `_start_tag` and `_finish_tag` for a
   * synthesised `tag`. It names no title, head, body or meta tag, so only
   * the tag fields and the state change.
   */
  function CloseRawText(m: Machine, tag: bytes, known: bytes -> bool): (r: Machine)
    requires tag == SLASH_SCRIPT || tag == SLASH_STYLE
    ensures r == m.(lastTag := tag, lastAttrs := None, state := Content)
  {
    var t := Lower(tag);
    assert t != TITLE && t != SLASH_TITLE && t != SLASH_HEAD && t != BODY && t != META by {
      assert t[1] == LowerByte(tag[1]) && t[2] == LowerByte(tag[2]);
    }
    var m1 := StartTag(m.(lastTag := tag), tag);
    assert m1 == m.(lastTag := tag, lastAttrs := Some(map[]));
    FinishTag(m1, tag, known).(state := Content)
  }

  /** The `script` states: scanning for a case-insensitive `</script>`. */
  function StepScript(m: Machine, c: byte, known: bytes -> bool): (r: Machine)
    requires InScript(m.state)
    ensures Valid(r)
    ensures r.effCharset != m.effCharset ==> known(r.effCharset)
  {
    if m.state.ScriptTagSlashScript? && c == GREATER_THAN then CloseRawText(m, SLASH_SCRIPT, known)
    else m.(state := ScriptNext(m.state, c))
  }

  /** The `style` states: scanning for a case-insensitive `</style>`. */
  function StepStyle(m: Machine, c: byte, known: bytes -> bool): (r: Machine)
    requires InStyle(m.state)
    ensures Valid(r)
    ensures r.effCharset != m.effCharset ==> known(r.effCharset)
  {
    if m.state.StyleTagSlashStyle? && c == GREATER_THAN then CloseRawText(m, SLASH_STYLE, known)
    else m.(state := StyleNext(m.state, c))
  }

  /** One iteration of the loop in `feed`: the byte `c` in the current state. */
  function Step(m: Machine, c: byte, known: bytes -> bool): (r: Machine)
    requires Valid(m)
    ensures Valid(r)
    ensures r.effCharset != m.effCharset ==> known(r.effCharset)
  {
    if InScript(m.state) then StepScript(m, c, known)
    else if InStyle(m.state) then StepStyle(m, c, known)
    else match m.state
    case Content => StepContent(m, c)
    case Tag => StepTag(m, c)
    case TagSlash => StepPrefixed(m, c, [SLASH], None, known)
    case TagBang => StepPrefixed(m, c, [BANG], Some(TagBangDash), known)
    case TagBangDash => StepPrefixed(m, c, [BANG, DASH], Some(Comment), known)
    case TagName => StepTagName(m, c, known)
    case TagNameSlash => StepTagNameSlash(m, c, known)
    case AttrName => StepAttrName(m, c, known)
    case AttrNameSlash => StepAttrNameSlash(m, c, known)
    case AttrValue => StepAttrValue(m, c, known)
    case AttrQuote => StepAttrQuote(m, c)
    case AttrValueSlash => StepAttrValueSlash(m, c, known)
    case Comment | CommentDash | CommentDashDash => StepComment(m, c)
  }

  /** The loop of `feed` over `data`. */
  function Run(m: Machine, data: bytes, known: bytes -> bool): (r: Machine)
    requires Valid(m)
    ensures Valid(r)
    ensures r.effCharset != m.effCharset ==> known(r.effCharset)
    decreases |data|
  {
    if data == [] then m else Run(Step(m, data[0], known), data[1..], known)
  }

  /** `_is_enough`, which `feed` never calls: the head is over, or a title, a description and a charset are known. */
  predicate IsEnough(m: Machine)
  {
    m.headDone || (m.title.Some? && m.description.Some? && m.charset.Some?)
  }

  /** The `Title` that `feed` returns, before decoding. */
  datatype Title = Title(
    enough: bool,
    title: Option<bytes>,
    description: Option<bytes>,
    charset: Option<bytes>,
    effCharset: bytes)

  /** The value `feed` returns: `enough` is `head_done` itself, the fields are returned as they are. */
  function Report(m: Machine): (t: Title)
    ensures t.enough <==> m.headDone
    ensures t.title == m.title && t.description == m.description
    ensures t.charset == m.charset && t.effCharset == m.effCharset
  {
    Title(m.headDone, m.title, m.description, m.charset, m.effCharset)
  }
}
