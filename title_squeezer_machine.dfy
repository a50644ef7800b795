/**
 * The state machine of title_squeezer.py as pure functions over a record of
 * every field of `Squeezer`: the tokenizer state, the pending tag, attribute
 * name, attribute value and attribute map, and the extracted metadata.
 *
 * `Step` is one iteration of the loop in `Squeezer.feed`, `Run` is the whole
 * loop. The event handlers `_dispatch_content`, `_start_tag`,
 * `_dispatch_attr`, `_finish_tag` and `_set_charset` are functions of the
 * record. The class in title_squeezer.dfy updates its fields in place and is
 * proved to follow these functions.
 */
module TitleSqueezerMachine {
  import opened Wrappers
  import opened Bytes
  import opened Names
  import opened Tokenizer

  /** Every field of a `Squeezer` except the debug flag. */
  datatype Machine = Machine(
    state: State,
    lastTag: bytes,
    lastAttr: bytes,
    lastValue: Option<bytes>,
    lastAttrs: Option<Attrs>,
    charset: Option<bytes>,
    effCharset: bytes,
    insideTitle: bool,
    title: Option<bytes>,
    description: Option<bytes>,
    ogTitle: Option<bytes>,
    ogDescription: Option<bytes>,
    headDone: bool)

  /**
   * The machine after consuming one byte. `raised` says that `_start_tag`
   * raised: on `/title` while `title` is still `None` the `_log` argument
   * `self.title.decode(...)` fails, so the byte's processing stops where it
   * was and `feed` propagates the exception.
   */
  datatype Outcome = Outcome(m: Machine, raised: bool)

  /** `Squeezer.__init__(default_charset)`. */
  function Init(defaultCharset: bytes): (m: Machine)
    ensures Valid(m) && m.state.Content? && m.effCharset == defaultCharset
  {
    Machine(Content, [], [], None, None, None, defaultCharset, false, None, None, None, None, false)
  }

  /**
   * What `feed` relies on without checking: a tag name is under way in the
   * name and attribute states, the attribute map exists in the attribute
   * states (so the subscript assignment in `_dispatch_attr` and the
   * `assert self.lastattrs is not None` in `_finish_tag` hold), and a value
   * exists in the value states (so `self.lastvalue += c` applies to bytes).
   */
  predicate Valid(m: Machine)
  {
    && (InTagName(m.state) || InAttr(m.state) ==> |m.lastTag| > 0)
    && (InAttr(m.state) ==> m.lastAttrs.Some?)
    && (InValue(m.state) ==> m.lastValue.Some?)
  }

  /** The fields the tokenizer alone owns; the event handlers never touch them. */
  predicate SameTokenizer(m: Machine, n: Machine)
  {
    m.state == n.state && m.lastTag == n.lastTag && m.lastAttr == n.lastAttr && m.lastValue == n.lastValue
  }

  /** `_dispatch_content`: text seen while inside `<title>` is appended to `title`. */
  function DispatchContent(m: Machine, content: bytes): (r: Machine)
    ensures r.(title := m.title) == m
    ensures m.title.Some? ==> r.title.Some? && m.title.value <= r.title.value
    ensures r.title == if m.insideTitle then Some(OrEmpty(m.title) + content) else m.title
  {
    if m.insideTitle then
      assert m.title.None? ==> OrEmpty(m.title) + content == content;
      m.(title := Some(if m.title.None? then content else m.title.value + content))
    else m
  }

  /**
   * `_start_tag`: a non-empty tag resets the attribute map, `<title>` enters
   * the title while no title has been captured, `</title>` leaves it, and
   * `</head>` or `<body>` ends the head. `</title>` while `title` is `None`
   * raises, after the attribute map was reset.
   */
  function StartTag(m: Machine, tag: bytes): (o: Outcome)
    ensures |tag| == 0 ==> o == Outcome(m, false)
    ensures o.raised <==> Lower(tag) == SLASH_TITLE && m.title.None?
    ensures |tag| > 0 ==> o.m.lastAttrs == Some(map[])
    ensures o.m.(lastAttrs := m.lastAttrs, insideTitle := m.insideTitle, headDone := m.headDone) == m
    ensures o.m.insideTitle && !m.insideTitle ==> m.title.None? && Lower(tag) == TITLE
    ensures m.headDone ==> o.m.headDone
    ensures o.m.headDone && !m.headDone ==> Lower(tag) == SLASH_HEAD || Lower(tag) == BODY
  {
    if |tag| == 0 then Outcome(m, false)
    else
      var m1 := m.(lastAttrs := Some(map[]));
      var t := Lower(tag);
      if t == TITLE then
        Outcome(if m.title.None? then m1.(insideTitle := true) else m1, false)
      else if t == SLASH_TITLE then
        if m.title.None? then Outcome(m1, true) else Outcome(m1.(insideTitle := false), false)
      else if t == SLASH_HEAD then Outcome(m1.(headDone := true), false)
      else if t == BODY then Outcome(m1.(headDone := true), false)
      else Outcome(m1, false)
  }

  /**
   * `_dispatch_attr`: records a non-empty attribute under its lower-cased
   * name. Its `assert tag == self.lasttag` and its subscript assignment on
   * `lastattrs` are the precondition.
   */
  function DispatchAttr(m: Machine, tag: bytes, attr: bytes, value: Option<bytes>): (r: Machine)
    requires |attr| > 0 ==> tag == m.lastTag && m.lastAttrs.Some?
    ensures r.(lastAttrs := m.lastAttrs) == m
    ensures r.lastAttrs.Some? <==> m.lastAttrs.Some?
    ensures |attr| > 0 ==> Lower(attr) in r.lastAttrs.value && r.lastAttrs.value[Lower(attr)] == value
    ensures |attr| > 0 ==> forall k :: k in m.lastAttrs.value && k != Lower(attr) ==>
      k in r.lastAttrs.value && r.lastAttrs.value[k] == m.lastAttrs.value[k]
  {
    if |attr| == 0 then m
    else m.(lastAttrs := Some(m.lastAttrs.value[Lower(attr) := value]))
  }

  /**
   * `_set_charset`: an absent or empty value is ignored; otherwise the
   * stripped name becomes `charset`, and `effCharset` only when it names a
   * codec.
   */
  function SetCharset(m: Machine, value: Option<bytes>, known: bytes -> bool): (r: Machine)
    ensures r.(charset := m.charset, effCharset := m.effCharset) == m
    ensures value.None? || value == Some([]) ==> r == m
    ensures value.Some? && value != Some([]) ==> r.charset == Some(Strip(value.value))
    ensures r.effCharset != m.effCharset ==> known(r.effCharset) && r.charset == Some(r.effCharset)
    ensures value.Some? && value != Some([]) && known(Strip(value.value)) ==> r.effCharset == Strip(value.value)
  {
    if value.None? || |value.value| == 0 then m
    else
      var name := Strip(value.value);
      m.(charset := Some(name), effCharset := if known(name) then name else m.effCharset)
  }

  /** One `;`-separated piece of an `http-equiv` content: `charset=<name>` sets the charset. */
  function ApplyPiece(m: Machine, item: bytes, known: bytes -> bool): (r: Machine)
    ensures r.(charset := m.charset, effCharset := m.effCharset) == m
    ensures r.effCharset != m.effCharset ==> known(r.effCharset)
  {
    match SplitOnce(item, EQUALS)
    case None => m
    case Some((key, value)) =>
      if Lower(Strip(key)) == CHARSET then SetCharset(m, Some(Strip(value)), known) else m
  }

  /** The loop over `content.split(b';')`: every piece, in order. */
  function ApplyContentType(m: Machine, pieces: seq<bytes>, known: bytes -> bool): (r: Machine)
    ensures r.(charset := m.charset, effCharset := m.effCharset) == m
    ensures r.effCharset != m.effCharset ==> known(r.effCharset)
    decreases |pieces|
  {
    if pieces == [] then m
    else ApplyContentType(ApplyPiece(m, pieces[0], known), pieces[1..], known)
  }

  /** Whether attribute `key` is present with a value that lower-cases to `v`. */
  predicate AttrIs(a: Attrs, key: bytes, v: bytes)
  {
    key in a && LowerOrNone(a[key]) == Some(v)
  }

  /** The attribute's value, `None` when it is missing (`dict.get`). */
  function Get(a: Attrs, key: bytes): Option<bytes>
  {
    if key in a then a[key] else None
  }

  /** The charset part of a `<meta>`: the `charset` attribute, else a `Content-Type` `http-equiv`. */
  function CharsetFromMeta(m: Machine, a: Attrs, known: bytes -> bool): (r: Machine)
    ensures r.(charset := m.charset, effCharset := m.effCharset) == m
    ensures r.effCharset != m.effCharset ==> known(r.effCharset)
  {
    if CHARSET in a then SetCharset(m, a[CHARSET], known)
    else if HTTP_EQUIV in a then
      if LowerOrNone(a[HTTP_EQUIV]) == Some(CONTENT_TYPE) then
        var content := Get(a, CONTENT);
        if content.Some? && |content.value| > 0 then
          ApplyContentType(m, Split(content.value, SEMICOLON), known)
        else m
      else m
    else m
  }

  /**
   * The description and Open Graph part of a `<meta>`: a field still `None`
   * takes the `content` attribute when `name` or `property` names it, and
   * no other field changes.
   */
  function FillFields(m: Machine, a: Attrs): (r: Machine)
    ensures r.(description := m.description, ogTitle := m.ogTitle, ogDescription := m.ogDescription) == m
    ensures m.description.Some? ==> r.description == m.description
    ensures m.description.None? && AttrIs(a, NAME, DESCRIPTION) && CONTENT in a ==> r.description == a[CONTENT]
    ensures !(AttrIs(a, NAME, DESCRIPTION) && CONTENT in a) ==> r.description == m.description
    ensures m.ogTitle.Some? ==> r.ogTitle == m.ogTitle
    ensures m.ogTitle.None? && AttrIs(a, PROPERTY, OG_TITLE) && CONTENT in a ==> r.ogTitle == a[CONTENT]
    ensures !(AttrIs(a, PROPERTY, OG_TITLE) && CONTENT in a) ==> r.ogTitle == m.ogTitle
    ensures m.ogDescription.Some? ==> r.ogDescription == m.ogDescription
    ensures m.ogDescription.None? && AttrIs(a, PROPERTY, OG_DESCRIPTION) && CONTENT in a ==> r.ogDescription == a[CONTENT]
    ensures !(AttrIs(a, PROPERTY, OG_DESCRIPTION) && CONTENT in a) ==> r.ogDescription == m.ogDescription
  {
    var m2 :=
      if m.description.None? && AttrIs(a, NAME, DESCRIPTION) && CONTENT in a
      then m.(description := a[CONTENT]) else m;
    var m3 :=
      if m2.ogTitle.None? && AttrIs(a, PROPERTY, OG_TITLE) && CONTENT in a
      then m2.(ogTitle := a[CONTENT]) else m2;
    if m3.ogDescription.None? && AttrIs(a, PROPERTY, OG_DESCRIPTION) && CONTENT in a
    then m3.(ogDescription := a[CONTENT]) else m3
  }

  /** The `<meta>` part of `_finish_tag`: the charset while none is known, then the other fields. */
  function ExtractMeta(m: Machine, a: Attrs, known: bytes -> bool): (r: Machine)
    ensures SameTokenizer(m, r) && r.lastAttrs == m.lastAttrs
    ensures r.insideTitle == m.insideTitle && r.title == m.title && r.headDone == m.headDone
    ensures r.effCharset != m.effCharset ==> known(r.effCharset)
    ensures m.charset.Some? ==> r.charset == m.charset && r.effCharset == m.effCharset
    ensures m.charset.None? ==>
      var c := CharsetFromMeta(m, a, known); r.charset == c.charset && r.effCharset == c.effCharset
    ensures
      var f := FillFields(m, a);
      r.description == f.description && r.ogTitle == f.ogTitle && r.ogDescription == f.ogDescription
  {
    var m1 := if m.charset.None? then CharsetFromMeta(m, a, known) else m;
    FillFields(m1, a)
  }

  /**
   * `_finish_tag`: a `<meta>` contributes its charset, description and Open
   * Graph fields, and the attribute map of a non-empty tag is discarded. Its
   * two asserts are the precondition.
   */
  function FinishTag(m: Machine, tag: bytes, known: bytes -> bool): (r: Machine)
    requires |tag| > 0 ==> tag == m.lastTag && m.lastAttrs.Some?
    ensures |tag| == 0 ==> r == m
    ensures |tag| > 0 ==> r.lastAttrs.None?
    ensures SameTokenizer(m, r)
    ensures r.insideTitle == m.insideTitle && r.title == m.title && r.headDone == m.headDone
    ensures Lower(tag) != META ==> r == m.(lastAttrs := r.lastAttrs)
    ensures r.effCharset != m.effCharset ==> known(r.effCharset)
    ensures m.charset.Some? ==> r.charset == m.charset && r.effCharset == m.effCharset
    ensures m.description.Some? ==> r.description == m.description
    ensures m.ogTitle.Some? ==> r.ogTitle == m.ogTitle
    ensures m.ogDescription.Some? ==> r.ogDescription == m.ogDescription
  {
    if |tag| == 0 then m
    else (if Lower(tag) == META then ExtractMeta(m, m.lastAttrs.value, known) else m).(lastAttrs := None)
  }

  /** Where `>` leads after closing `tag`: raw text for `script` and `style`, else content. */
  function AfterTag(tag: bytes): State
  {
    if Lower(tag) == SCRIPT then Script else if Lower(tag) == STYLE then Style else Content
  }

  /** `<` in content: a new tag begins with nothing pending. */
  function BeginTag(m: Machine): Machine
  {
    m.(lastTag := [], lastAttr := [], lastValue := None, state := Tag)
  }

  /** `content` and `contentspace`: a whitespace run passes on a single space. */
  function StepContent(m: Machine, c: byte): (r: Machine)
    requires m.state.Content? || m.state.ContentSpace?
    ensures Valid(r)
    ensures r.effCharset == m.effCharset
    ensures c == LESS_THAN ==> r == BeginTag(m)
    ensures IsSpace(c) ==> r.state.ContentSpace?
    ensures IsSpace(c) && m.state.Content? ==> r == DispatchContent(m, [SPACE]).(state := ContentSpace)
    ensures IsSpace(c) && m.state.ContentSpace? ==> r == m
    ensures !IsSpace(c) && c != LESS_THAN ==> r == DispatchContent(m, [c]).(state := Content)
  {
    if m.state.Content? then
      if IsSpace(c) then DispatchContent(m, [SPACE]).(state := ContentSpace)
      else if c == LESS_THAN then BeginTag(m)
      else DispatchContent(m, [c])
    else
      if IsSpace(c) then m
      else if c == LESS_THAN then BeginTag(m)
      else DispatchContent(m, [c]).(state := Content)
  }

  /** `tag`, just after `<`: stray delimiters become escaped text. */
  function StepTag(m: Machine, c: byte): (r: Machine)
    requires m.state.Tag?
    ensures Valid(r)
    ensures r.effCharset == m.effCharset
    ensures IsSpace(c) ==> r == DispatchContent(m, ESCAPED_LT + [c]).(state := Content)
    ensures c == LESS_THAN ==> r == DispatchContent(m, ESCAPED_LT)
    ensures c == GREATER_THAN ==> r == DispatchContent(m, ESCAPED_LT + ESCAPED_GT).(state := Content)
    ensures c == BANG ==> r == m.(state := TagBang)
    ensures c == SLASH ==> r == m.(state := TagSlash)
    ensures !Delimits(c) && c != BANG && c != SLASH ==> r == m.(lastTag := [c], state := TagName)
  {
    if IsSpace(c) then DispatchContent(m, ESCAPED_LT + [c]).(state := Content)
    else if c == LESS_THAN then DispatchContent(m, ESCAPED_LT)
    else if c == GREATER_THAN then DispatchContent(m, ESCAPED_LT + ESCAPED_GT).(state := Content)
    else if c == BANG then m.(state := TagBang)
    else if c == SLASH then m.(state := TagSlash)
    else m.(lastTag := [c], state := TagName)
  }

  /**
   * `tagslash`, `tagbang` and `tagbangdash`, after `</`, `<!` and `<!-`:
   * `prefix` is `/`, `!` or `!-`, and `onDash` is where a `-` leads
   * (`tagbangdash`, `comment`, or nowhere special after `</`).
   */
  function StepPrefixed(m: Machine, c: byte, prefix: bytes, onDash: Option<State>, known: bytes -> bool): (r: Machine)
    requires 0 < |prefix| < |SLASH_TITLE|
    requires onDash.Some? ==> onDash.value == TagBangDash || onDash.value == Comment
    ensures Valid(r)
    ensures r.effCharset != m.effCharset ==> known(r.effCharset)
    ensures c == LESS_THAN ==> r == DispatchContent(m, ESCAPED_LT + prefix).(state := Tag)
    ensures c == DASH && onDash.Some? ==> r == m.(state := onDash.value)
    ensures !IsSpace(c) && c != LESS_THAN && c != GREATER_THAN && !(c == DASH && onDash.Some?) ==>
      r == m.(lastTag := prefix + [c], state := TagName)
  {
    if IsSpace(c) then
      StartTag(m.(lastTag := prefix), prefix).m.(state := AttrName)
    else if c == LESS_THAN then
      DispatchContent(m, ESCAPED_LT + prefix).(state := Tag)
    else if c == GREATER_THAN then
      var m1 := StartTag(m.(lastTag := prefix), prefix).m;
      FinishTag(m1, prefix, known).(state := Content)
    else if c == DASH && onDash.Some? then
      m.(state := onDash.value)
    else m.(lastTag := prefix + [c], state := TagName)
  }

  /** `_start_tag(lasttag)`, then `_finish_tag(lasttag)` and the state `next`, unless the start raised. */
  function CloseTag(m: Machine, next: State, known: bytes -> bool): (o: Outcome)
    requires InTagName(m.state) && Valid(m)
    requires next == Content || next == Script || next == Style
    ensures Valid(o.m)
    ensures o.m.effCharset != m.effCharset ==> known(o.m.effCharset)
  {
    var o1 := StartTag(m, m.lastTag);
    if o1.raised then o1
    else Outcome(FinishTag(o1.m, m.lastTag, known).(state := next), false)
  }

  /** `tagname`: the tag name is being read. */
  function StepTagName(m: Machine, c: byte, known: bytes -> bool): (o: Outcome)
    requires m.state.TagName? && Valid(m)
    ensures Valid(o.m)
    ensures o.m.effCharset != m.effCharset ==> known(o.m.effCharset)
  {
    if IsSpace(c) then
      var o1 := StartTag(m, m.lastTag);
      if o1.raised then o1 else Outcome(o1.m.(state := AttrName), false)
    else if c == LESS_THAN then
      var o1 := StartTag(m, m.lastTag);
      if o1.raised then o1 else Outcome(o1.m.(lastTag := [], state := Tag), false)
    else if c == GREATER_THAN then CloseTag(m, AfterTag(m.lastTag), known)
    else if c == SLASH then Outcome(m.(state := TagNameSlash), false)
    else Outcome(m.(lastTag := m.lastTag + [c]), false)
  }

  /** `tagnameslash`: a `/` inside or after the tag name. */
  function StepTagNameSlash(m: Machine, c: byte, known: bytes -> bool): (o: Outcome)
    requires m.state.TagNameSlash? && Valid(m)
    ensures Valid(o.m)
    ensures o.m.effCharset != m.effCharset ==> known(o.m.effCharset)
  {
    if IsSpace(c) then
      var tag := m.lastTag + [SLASH];
      var o1 := StartTag(m.(lastTag := tag), tag);
      if o1.raised then o1 else Outcome(o1.m.(state := AttrName), false)
    else if c == LESS_THAN then
      var o1 := StartTag(m, m.lastTag);
      if o1.raised then o1 else Outcome(o1.m.(lastTag := [], state := Tag), false)
    else if c == GREATER_THAN then CloseTag(m, Content, known)
    else if c == SLASH then Outcome(m.(lastTag := m.lastTag + [SLASH]), false)
    else Outcome(m.(lastTag := m.lastTag + [c], state := TagName), false)
  }

  /** What `<` does in every attribute state: the pending tag is dropped and a new one begins. */
  function Restart(m: Machine): Machine
  {
    m.(lastTag := [], lastAttr := [], lastValue := None, state := Tag)
  }

  /** The attribute map once `attr` is recorded with `value`; an empty name records nothing. */
  function WithAttr(m: Machine, attr: bytes, value: Option<bytes>): Option<Attrs>
    requires m.lastAttrs.Some?
  {
    if |attr| == 0 then m.lastAttrs else Some(m.lastAttrs.value[Lower(attr) := value])
  }

  /** `attrname`: an attribute name is being read. */
  function StepAttrName(m: Machine, c: byte, known: bytes -> bool): (r: Machine)
    requires m.state.AttrName? && Valid(m)
    ensures Valid(r)
    ensures r.effCharset != m.effCharset ==> known(r.effCharset)
    ensures IsSpace(c) ==> r == m.(lastAttrs := WithAttr(m, m.lastAttr, None)).(lastAttr := [], lastValue := None, state := AttrName)
    ensures c == LESS_THAN ==> r == Restart(m.(lastAttrs := WithAttr(m, m.lastAttr, None)))
    ensures !EndsAttrName(c) ==> r == m.(lastAttr := m.lastAttr + [c])
    ensures c == SLASH ==> r == m.(state := AttrNameSlash)
    ensures c == EQUALS ==> r == m.(lastValue := Some([]), state := AttrValue)
  {
    if IsSpace(c) then
      DispatchAttr(m, m.lastTag, m.lastAttr, None).(lastAttr := [], lastValue := None)
    else if c == LESS_THAN then
      Restart(DispatchAttr(m, m.lastTag, m.lastAttr, None))
    else if c == GREATER_THAN then
      var m1 := DispatchAttr(m, m.lastTag, m.lastAttr, None);
      FinishTag(m1, m.lastTag, known).(state := AfterTag(m.lastTag))
    else if c == SLASH then m.(state := AttrNameSlash)
    else if c == EQUALS then m.(lastValue := Some([]), state := AttrValue)
    else m.(lastAttr := m.lastAttr + [c])
  }

  /** `>` records the pending attribute and finishes the tag. */
  lemma StepAttrNameCloses(m: Machine, known: bytes -> bool)
    requires m.state.AttrName? && Valid(m)
    ensures StepAttrName(m, GREATER_THAN, known) == FinishTag(m.(lastAttrs := WithAttr(m, m.lastAttr, None)), m.lastTag, known).(state := AfterTag(m.lastTag))
  {
  }

  /** `attrnameslash`: a `/` inside or after an attribute name. */
  function StepAttrNameSlash(m: Machine, c: byte, known: bytes -> bool): (r: Machine)
    requires m.state.AttrNameSlash? && Valid(m)
    ensures Valid(r)
    ensures r.effCharset != m.effCharset ==> known(r.effCharset)
    ensures IsSpace(c) ==> r == m.(lastAttrs := WithAttr(m, m.lastAttr + [SLASH], None), lastAttr := [], lastValue := None)
    ensures c == LESS_THAN ==> r == Restart(m.(lastAttrs := WithAttr(m, m.lastAttr, None)))
    ensures !EndsAttrName(c) ==> r == m.(lastAttr := m.lastAttr + [c], state := AttrName)
    ensures c == SLASH ==> r == m.(lastAttr := m.lastAttr + [SLASH])
    ensures c == EQUALS ==> r == m.(lastValue := Some([]), state := AttrValue)
  {
    if IsSpace(c) then
      DispatchAttr(m, m.lastTag, m.lastAttr + [SLASH], None).(lastAttr := [], lastValue := None)
    else if c == LESS_THAN then
      Restart(DispatchAttr(m, m.lastTag, m.lastAttr, None))
    else if c == GREATER_THAN then
      var m1 := DispatchAttr(m, m.lastTag, m.lastAttr, None);
      FinishTag(m1, m.lastTag, known).(state := Content)
    else if c == SLASH then m.(lastAttr := m.lastAttr + [SLASH])
    else if c == EQUALS then m.(lastValue := Some([]), state := AttrValue)
    else m.(lastAttr := m.lastAttr + [c], state := AttrName)
  }

  /** `>` records the pending attribute and finishes the tag. */
  lemma StepAttrNameSlashCloses(m: Machine, known: bytes -> bool)
    requires m.state.AttrNameSlash? && Valid(m)
    ensures StepAttrNameSlash(m, GREATER_THAN, known) == FinishTag(m.(lastAttrs := WithAttr(m, m.lastAttr, None)), m.lastTag, known).(state := Content)
  {
  }

  /** `attrvalue`: an unquoted value, or what follows a closing quote. */
  function StepAttrValue(m: Machine, c: byte, known: bytes -> bool): (r: Machine)
    requires m.state.AttrValue? && Valid(m)
    ensures Valid(r)
    ensures r.effCharset != m.effCharset ==> known(r.effCharset)
    ensures IsSpace(c) ==> r == m.(lastAttrs := WithAttr(m, m.lastAttr, m.lastValue)).(lastAttr := [], lastValue := None, state := AttrName)
    ensures c == LESS_THAN ==> r == Restart(m.(lastAttrs := WithAttr(m, m.lastAttr, m.lastValue)))
    ensures !Delimits(c) && c != QUOTE ==> r == m.(lastValue := Some(m.lastValue.value + [c]))
    ensures c == SLASH ==> r == m.(state := AttrValueSlash)
    ensures c == QUOTE ==> r == m.(state := AttrQuote)
  {
    if IsSpace(c) then
      DispatchAttr(m, m.lastTag, m.lastAttr, m.lastValue).(lastAttr := [], lastValue := None, state := AttrName)
    else if c == LESS_THAN then
      Restart(DispatchAttr(m, m.lastTag, m.lastAttr, m.lastValue))
    else if c == GREATER_THAN then
      var m1 := DispatchAttr(m, m.lastTag, m.lastAttr, m.lastValue);
      FinishTag(m1, m.lastTag, known).(state := AfterTag(m.lastTag))
    else if c == SLASH then m.(state := AttrValueSlash)
    else if c == QUOTE then m.(state := AttrQuote)
    else m.(lastValue := Some(m.lastValue.value + [c]))
  }

  /** `>` records the pending attribute and finishes the tag. */
  lemma StepAttrValueCloses(m: Machine, known: bytes -> bool)
    requires m.state.AttrValue? && Valid(m)
    ensures StepAttrValue(m, GREATER_THAN, known) == FinishTag(m.(lastAttrs := WithAttr(m, m.lastAttr, m.lastValue)), m.lastTag, known).(state := AfterTag(m.lastTag))
  {
  }

  /** `attrquote`: between double quotes every byte but `"` belongs to the value. */
  function StepAttrQuote(m: Machine, c: byte): (r: Machine)
    requires m.state.AttrQuote? && Valid(m)
    ensures Valid(r)
    ensures r.effCharset == m.effCharset
  {
    if c == QUOTE then m.(state := AttrValue)
    else m.(lastValue := Some(m.lastValue.value + [c]))
  }

  /** `attrvalueslash`: a `/` inside or after an attribute value. */
  function StepAttrValueSlash(m: Machine, c: byte, known: bytes -> bool): (r: Machine)
    requires m.state.AttrValueSlash? && Valid(m)
    ensures Valid(r)
    ensures r.effCharset != m.effCharset ==> known(r.effCharset)
    ensures IsSpace(c) ==> r == m.(lastAttrs := WithAttr(m, m.lastAttr, Some(m.lastValue.value + [SLASH]))).(lastAttr := [], lastValue := None, state := AttrName)
    ensures c == LESS_THAN ==> r == Restart(m.(lastAttrs := WithAttr(m, m.lastAttr, m.lastValue)))
    ensures !Delimits(c) && c != QUOTE ==> r == m.(lastValue := Some(m.lastValue.value + [c]), state := AttrValue)
    ensures c == SLASH ==> r == m.(lastValue := Some(m.lastValue.value + [SLASH]))
    ensures c == QUOTE ==> r == m.(state := AttrQuote)
  {
    if IsSpace(c) then
      var value := Some(m.lastValue.value + [SLASH]);
      DispatchAttr(m, m.lastTag, m.lastAttr, value).(lastAttr := [], lastValue := None, state := AttrName)
    else if c == LESS_THAN then
      Restart(DispatchAttr(m, m.lastTag, m.lastAttr, m.lastValue))
    else if c == GREATER_THAN then
      var m1 := DispatchAttr(m, m.lastTag, m.lastAttr, m.lastValue);
      FinishTag(m1, m.lastTag, known).(state := AfterTag(m.lastTag))
    else if c == SLASH then m.(lastValue := Some(m.lastValue.value + [SLASH]))
    else if c == QUOTE then m.(state := AttrQuote)
    else m.(lastValue := Some(m.lastValue.value + [c]), state := AttrValue)
  }

  /** `>` records the pending attribute and finishes the tag. */
  lemma StepAttrValueSlashCloses(m: Machine, known: bytes -> bool)
    requires m.state.AttrValueSlash? && Valid(m)
    ensures StepAttrValueSlash(m, GREATER_THAN, known) == FinishTag(m.(lastAttrs := WithAttr(m, m.lastAttr, m.lastValue)), m.lastTag, known).(state := AfterTag(m.lastTag))
  {
  }

  /** `comment`, `commentdash`, `commentdashdash`: only `-->` ends a comment. */
  function StepComment(m: Machine, c: byte): (r: Machine)
    requires m.state.Comment? || m.state.CommentDash? || m.state.CommentDashDash?
    ensures Valid(r)
    ensures r.effCharset == m.effCharset
  {
    match m.state
    case Comment => if c == DASH then m.(state := CommentDash) else m
    case CommentDash => m.(state := if c == DASH then CommentDashDash else Comment)
    case CommentDashDash => m.(state := if c == GREATER_THAN then Content else Comment)
  }

  /**
   * The end of a raw-text element: `_start_tag` and `_finish_tag` for a
   * synthesised `tag`. It names no title, head, body or meta tag, so only
   * the tag fields and the state change.
   */
  function CloseRawText(m: Machine, tag: bytes, known: bytes -> bool): (r: Machine)
    requires tag == SLASH_SCRIPT || tag == SLASH_STYLE
    ensures r == m.(lastTag := tag, lastAttrs := None, state := Content)
  {
    var t := Lower(tag);
    assert t != TITLE && t != SLASH_TITLE && t != SLASH_HEAD && t != BODY && t != META by {
      assert t[1] == LowerByte(tag[1]) && t[2] == LowerByte(tag[2]);
    }
    var m1 := StartTag(m.(lastTag := tag), tag).m;
    assert m1 == m.(lastTag := tag, lastAttrs := Some(map[]));
    FinishTag(m1, tag, known).(state := Content)
  }

  /** The `script` states: scanning for a case-insensitive `</script>`. */
  function StepScript(m: Machine, c: byte, known: bytes -> bool): (r: Machine)
    requires InScript(m.state)
    ensures Valid(r)
    ensures r.effCharset != m.effCharset ==> known(r.effCharset)
  {
    if m.state.ScriptTagSlashScript? && c == GREATER_THAN then CloseRawText(m, SLASH_SCRIPT, known)
    else m.(state := ScriptNext(m.state, c))
  }

  /** The `style` states: scanning for a case-insensitive `</style>`. */
  function StepStyle(m: Machine, c: byte, known: bytes -> bool): (r: Machine)
    requires InStyle(m.state)
    ensures Valid(r)
    ensures r.effCharset != m.effCharset ==> known(r.effCharset)
  {
    if m.state.StyleTagSlashStyle? && c == GREATER_THAN then CloseRawText(m, SLASH_STYLE, known)
    else m.(state := StyleNext(m.state, c))
  }

  /**
   * One iteration of the loop in `feed`: the byte `c` in the current state.
   * `known` tells which names the codec lookup in `_set_charset` accepts.
   */
  function Step(m: Machine, c: byte, known: bytes -> bool): (o: Outcome)
    requires Valid(m)
    ensures Valid(o.m)
    ensures o.m.effCharset != m.effCharset ==> known(o.m.effCharset)
  {
    if InScript(m.state) then Outcome(StepScript(m, c, known), false)
    else if InStyle(m.state) then Outcome(StepStyle(m, c, known), false)
    else match m.state
    case Content | ContentSpace => Outcome(StepContent(m, c), false)
    case Tag => Outcome(StepTag(m, c), false)
    case TagSlash => Outcome(StepPrefixed(m, c, [SLASH], None, known), false)
    case TagBang => Outcome(StepPrefixed(m, c, [BANG], Some(TagBangDash), known), false)
    case TagBangDash => Outcome(StepPrefixed(m, c, [BANG, DASH], Some(Comment), known), false)
    case TagName => StepTagName(m, c, known)
    case TagNameSlash => StepTagNameSlash(m, c, known)
    case AttrName => Outcome(StepAttrName(m, c, known), false)
    case AttrNameSlash => Outcome(StepAttrNameSlash(m, c, known), false)
    case AttrValue => Outcome(StepAttrValue(m, c, known), false)
    case AttrQuote => Outcome(StepAttrQuote(m, c), false)
    case AttrValueSlash => Outcome(StepAttrValueSlash(m, c, known), false)
    case Comment | CommentDash | CommentDashDash => Outcome(StepComment(m, c), false)
  }

  /** The loop of `feed` over `data`, stopping at the first byte that raises. */
  function Run(m: Machine, data: bytes, known: bytes -> bool): (o: Outcome)
    requires Valid(m)
    ensures Valid(o.m)
    ensures o.m.effCharset != m.effCharset ==> known(o.m.effCharset)
    decreases |data|
  {
    if data == [] then Outcome(m, false)
    else
      var o1 := Step(m, data[0], known);
      if o1.raised then o1 else Run(o1.m, data[1..], known)
  }

  /** `_is_enough`: the head is over, or a charset, a title and a description are all known. */
  predicate IsEnough(m: Machine)
  {
    m.headDone || (m.charset.Some? && (m.ogTitle.Some? || m.title.Some?)
                   && (m.ogDescription.Some? || m.description.Some?))
  }

  /**
   * The `Title` that `feed` returns, before decoding: `html.unescape` and
   * `bytes.decode(eff_charset, 'replace')` are not part of this model.
   */
  datatype Title = Title(
    enough: bool,
    title: Option<bytes>,
    description: Option<bytes>,
    charset: Option<bytes>,
    effCharset: bytes)

  /**
   * The value `feed` returns: the Open Graph title or description when it
   * is present and non-empty, else the `<title>` text or the meta
   * description (Python `or`).
   */
  function Report(m: Machine): (t: Title)
    ensures t.enough <==> IsEnough(m)
    ensures m.ogTitle.Some? && m.ogTitle != Some([]) ==> t.title == m.ogTitle
    ensures m.ogTitle.None? || m.ogTitle == Some([]) ==> t.title == m.title
    ensures m.ogDescription.Some? && m.ogDescription != Some([]) ==> t.description == m.ogDescription
    ensures m.ogDescription.None? || m.ogDescription == Some([]) ==> t.description == m.description
    ensures t.charset == m.charset && t.effCharset == m.effCharset
  {
    Title(IsEnough(m), OrElse(m.ogTitle, m.title), OrElse(m.ogDescription, m.description), m.charset, m.effCharset)
  }
}
