/**
 * The two squeezers side by side. title_squeezer.py keeps the tokenizer of
 * squeeze.py and adds one state, `contentspace`, that collapses runs of
 * whitespace; everything from `tag` on is the same code. So, byte for
 * byte, the two agree on where they are in the markup and on the pending
 * tag, attribute and value, as long as title_squeezer.py has not raised.
 * Where they differ is what they make of it: whitespace in the title, the
 * `/title` fault, and which `<meta>` wins.
 */
module Variants {
  import opened Wrappers
  import opened Bytes
  import opened Names
  import opened Tokenizer
  import T = TitleSqueezerMachine
  import S = SqueezeMachine
  import TL = TitleSqueezerLemmas
  import SL = SqueezeLemmas

  /** The squeeze.py state for a title_squeezer.py state: `contentspace` is content there. */
  function Flat(s: State): (r: State)
    ensures r != ContentSpace
    ensures r == s || (s == ContentSpace && r == Content)
  {
    if s == ContentSpace then Content else s
  }

  /** The two tokenizers are at the same point: same state, same pending tag, attribute, value and attribute map. */
  predicate Agree(t: T.Machine, s: S.Machine)
  {
    && Flat(t.state) == s.state
    && t.lastTag == s.lastTag && t.lastAttr == s.lastAttr && t.lastValue == s.lastValue
    && t.lastAttrs == s.lastAttrs
  }

  /** Both squeezers start at the same point. */
  lemma InitAgree(defaultCharset: bytes)
    ensures Agree(T.Init(defaultCharset), S.Init())
  {
  }

  /** Agreeing with a valid title_squeezer.py machine makes the squeeze.py machine valid. */
  lemma AgreeValid(t: T.Machine, s: S.Machine)
    requires T.Valid(t) && Agree(t, s)
    ensures S.Valid(s)
  {
  }

  // ---------------------------------------------------------------------
  // The handlers leave the tokenizers agreeing

  lemma StartAgree(x: T.Machine, y: S.Machine, tag: bytes)
    requires Agree(x, y) && !T.StartTag(x, tag).raised
    ensures Agree(T.StartTag(x, tag).m, S.StartTag(y, tag))
  {
  }

  lemma FinishAgree(x: T.Machine, y: S.Machine, tag: bytes, kt: bytes -> bool, ks: bytes -> bool)
    requires Agree(x, y) && (|tag| > 0 ==> tag == x.lastTag && x.lastAttrs.Some?)
    ensures Agree(T.FinishTag(x, tag, kt), S.FinishTag(y, tag, ks))
  {
  }

  lemma DispatchAttrAgree(x: T.Machine, y: S.Machine, tag: bytes, attr: bytes, v: Option<bytes>)
    requires Agree(x, y) && (|attr| > 0 ==> tag == x.lastTag && x.lastAttrs.Some?)
    ensures Agree(T.DispatchAttr(x, tag, attr, v), S.DispatchAttr(y, tag, attr, v))
  {
  }

  lemma AfterTagAgree(tag: bytes)
    ensures Flat(T.AfterTag(tag)) == S.AfterTag(tag)
  {
  }

  // ---------------------------------------------------------------------
  // One state at a time

  lemma ContentAgree(t: T.Machine, s: S.Machine, c: byte)
    requires (t.state.Content? || t.state.ContentSpace?) && Agree(t, s)
    ensures Agree(T.StepContent(t, c), S.StepContent(s, c))
  {
    assert s.state.Content?;
  }

  lemma TagAgree(t: T.Machine, s: S.Machine, c: byte)
    requires t.state.Tag? && Agree(t, s)
    ensures Agree(T.StepTag(t, c), S.StepTag(s, c))
  {
    assert s.state.Tag?;
    var tr := T.StepTag(t, c);
    var sr := S.StepTag(s, c);
    if IsSpace(c) {
      assert tr == T.DispatchContent(t, ESCAPED_LT + [c]).(state := Content);
      assert sr == S.DispatchContent(s, ESCAPED_LT + [c]).(state := Content);
    } else if c == LESS_THAN {
      assert tr == T.DispatchContent(t, ESCAPED_LT) && sr == S.DispatchContent(s, ESCAPED_LT);
    } else if c == GREATER_THAN {
      assert tr == T.DispatchContent(t, ESCAPED_LT + ESCAPED_GT).(state := Content);
      assert sr == S.DispatchContent(s, ESCAPED_LT + ESCAPED_GT).(state := Content);
    }
  }

  lemma PrefixedAgree(t: T.Machine, s: S.Machine, c: byte, prefix: bytes, onDash: Option<State>,
                      kt: bytes -> bool, ks: bytes -> bool)
    requires (t.state.TagSlash? || t.state.TagBang? || t.state.TagBangDash?) && Agree(t, s)
    requires 0 < |prefix| < |SLASH_TITLE|
    requires onDash.Some? ==> onDash.value == TagBangDash || onDash.value == Comment
    ensures Agree(T.StepPrefixed(t, c, prefix, onDash, kt), S.StepPrefixed(s, c, prefix, onDash, ks))
  {
    if IsSpace(c) || c == GREATER_THAN {
      PrefixedTagAgree(t, s, c, prefix, onDash, kt, ks);
    }
  }

  lemma PrefixedTagAgree(t: T.Machine, s: S.Machine, c: byte, prefix: bytes, onDash: Option<State>,
                         kt: bytes -> bool, ks: bytes -> bool)
    requires (t.state.TagSlash? || t.state.TagBang? || t.state.TagBangDash?) && Agree(t, s)
    requires 0 < |prefix| < |SLASH_TITLE|
    requires onDash.Some? ==> onDash.value == TagBangDash || onDash.value == Comment
    requires IsSpace(c) || c == GREATER_THAN
    ensures Agree(T.StepPrefixed(t, c, prefix, onDash, kt), S.StepPrefixed(s, c, prefix, onDash, ks))
  {
    var x := t.(lastTag := prefix);
    var y := s.(lastTag := prefix);
    assert !T.StartTag(x, prefix).raised by {
      assert Lower(prefix) != SLASH_TITLE;
    }
    StartAgree(x, y, prefix);
    FinishAgree(T.StartTag(x, prefix).m, S.StartTag(y, prefix), prefix, kt, ks);
  }

  lemma TagNameAgree(t: T.Machine, s: S.Machine, c: byte, kt: bytes -> bool, ks: bytes -> bool)
    requires t.state.TagName? && T.Valid(t) && Agree(t, s) && !T.StepTagName(t, c, kt).raised
    ensures Agree(T.StepTagName(t, c, kt).m, S.StepTagName(s, c, ks))
  {
    assert s.state.TagName?;
    var tr := T.StepTagName(t, c, kt).m;
    var sr := S.StepTagName(s, c, ks);
    if IsSpace(c) || c == LESS_THAN {
      StartAgree(t, s, t.lastTag);
      var x := T.StartTag(t, t.lastTag).m;
      var y := S.StartTag(s, s.lastTag);
      if IsSpace(c) {
        assert tr == x.(state := AttrName) && sr == y.(state := AttrName);
      } else {
        assert tr == x.(lastTag := [], state := Tag) && sr == y.(lastTag := [], state := Tag);
      }
    } else if c == GREATER_THAN {
      AgreeValid(t, s);
      TagNameCloses(t, s, T.AfterTag(t.lastTag), kt, ks);
      assert T.StepTagName(t, c, kt) == T.CloseTag(t, T.AfterTag(t.lastTag), kt);
      assert sr == S.CloseTag(s, S.AfterTag(s.lastTag), ks);
    }
  }

  /** `>` after a tag name: both close the tag and go to the same state. */
  lemma TagNameCloses(t: T.Machine, s: S.Machine, next: State, kt: bytes -> bool, ks: bytes -> bool)
    requires next == Content || next == Script || next == Style
    requires InTagName(t.state) && T.Valid(t) && S.Valid(s) && Agree(t, s) && !T.CloseTag(t, next, kt).raised
    ensures Agree(T.CloseTag(t, next, kt).m, S.CloseTag(s, next, ks))
  {
    assert InTagName(s.state);
    StartAgree(t, s, t.lastTag);
    var x := T.StartTag(t, t.lastTag).m;
    var y := S.StartTag(s, s.lastTag);
    FinishAgree(x, y, t.lastTag, kt, ks);
    assert T.CloseTag(t, next, kt).m == T.FinishTag(x, t.lastTag, kt).(state := next);
  }

  lemma TagNameSlashAgree(t: T.Machine, s: S.Machine, c: byte, kt: bytes -> bool, ks: bytes -> bool)
    requires t.state.TagNameSlash? && T.Valid(t) && Agree(t, s) && !T.StepTagNameSlash(t, c, kt).raised
    ensures Agree(T.StepTagNameSlash(t, c, kt).m, S.StepTagNameSlash(s, c, ks))
  {
    assert s.state.TagNameSlash?;
    if IsSpace(c) {
      TagNameSlashSpaceAgree(t, s, c, kt, ks);
    } else if c == LESS_THAN {
      StartAgree(t, s, t.lastTag);
      var x := T.StartTag(t, t.lastTag).m;
      var y := S.StartTag(s, s.lastTag);
      assert T.StepTagNameSlash(t, c, kt).m == x.(lastTag := [], state := Tag);
      assert S.StepTagNameSlash(s, c, ks) == y.(lastTag := [], state := Tag);
    } else if c == GREATER_THAN {
      TagNameSlashClosesAgree(t, s, kt, ks);
    }
  }

  lemma TagNameSlashSpaceAgree(t: T.Machine, s: S.Machine, c: byte, kt: bytes -> bool, ks: bytes -> bool)
    requires t.state.TagNameSlash? && T.Valid(t) && Agree(t, s) && IsSpace(c)
    requires !T.StepTagNameSlash(t, c, kt).raised
    ensures Agree(T.StepTagNameSlash(t, c, kt).m, S.StepTagNameSlash(s, c, ks))
  {
    assert s.state.TagNameSlash?;
    var tag := t.lastTag + [SLASH];
    StartAgree(t.(lastTag := tag), s.(lastTag := tag), tag);
    var x := T.StartTag(t.(lastTag := tag), tag).m;
    var y := S.StartTag(s.(lastTag := tag), tag);
    assert T.StepTagNameSlash(t, c, kt).m == x.(state := AttrName);
    assert S.StepTagNameSlash(s, c, ks) == y.(state := AttrName);
  }

  lemma TagNameSlashClosesAgree(t: T.Machine, s: S.Machine, kt: bytes -> bool, ks: bytes -> bool)
    requires t.state.TagNameSlash? && T.Valid(t) && Agree(t, s)
    requires !T.StepTagNameSlash(t, GREATER_THAN, kt).raised
    ensures Agree(T.StepTagNameSlash(t, GREATER_THAN, kt).m, S.StepTagNameSlash(s, GREATER_THAN, ks))
  {
    assert s.state.TagNameSlash?;
    AgreeValid(t, s);
    TagNameCloses(t, s, Content, kt, ks);
    assert T.StepTagNameSlash(t, GREATER_THAN, kt) == T.CloseTag(t, Content, kt);
    assert S.StepTagNameSlash(s, GREATER_THAN, ks) == S.CloseTag(s, Content, ks);
  }

  lemma AttrNameAgree(t: T.Machine, s: S.Machine, c: byte, kt: bytes -> bool, ks: bytes -> bool)
    requires t.state.AttrName? && T.Valid(t) && Agree(t, s)
    ensures Agree(T.StepAttrName(t, c, kt), S.StepAttrName(s, c, ks))
  {
    assert s.state.AttrName?;
    if c == GREATER_THAN {
      AttrNameCloses(t, s, kt, ks);
    } else {
      AttrNameOpen(t, s, c, kt, ks);
    }
  }

  lemma AttrNameOpen(t: T.Machine, s: S.Machine, c: byte, kt: bytes -> bool, ks: bytes -> bool)
    requires t.state.AttrName? && T.Valid(t) && Agree(t, s) && c != GREATER_THAN
    ensures Agree(T.StepAttrName(t, c, kt), S.StepAttrName(s, c, ks))
  {
    if IsSpace(c) {
      AttrNameSpace(t, s, c, kt, ks);
    } else if c == LESS_THAN {
      AttrNameRestart(t, s, kt, ks);
    } else {
      AttrNameOther(t, s, c, kt, ks);
    }
  }

  lemma AttrNameSpace(t: T.Machine, s: S.Machine, c: byte, kt: bytes -> bool, ks: bytes -> bool)
    requires t.state.AttrName? && T.Valid(t) && Agree(t, s) && IsSpace(c)
    ensures Agree(T.StepAttrName(t, c, kt), S.StepAttrName(s, c, ks))
  {
    assert s.state.AttrName?;
    assert T.WithAttr(t, t.lastAttr, None) == S.WithAttr(s, s.lastAttr, None);
  }

  lemma AttrNameRestart(t: T.Machine, s: S.Machine, kt: bytes -> bool, ks: bytes -> bool)
    requires t.state.AttrName? && T.Valid(t) && Agree(t, s)
    ensures Agree(T.StepAttrName(t, LESS_THAN, kt), S.StepAttrName(s, LESS_THAN, ks))
  {
    assert s.state.AttrName?;
    assert T.WithAttr(t, t.lastAttr, None) == S.WithAttr(s, s.lastAttr, None);
  }

  lemma AttrNameOther(t: T.Machine, s: S.Machine, c: byte, kt: bytes -> bool, ks: bytes -> bool)
    requires t.state.AttrName? && T.Valid(t) && Agree(t, s) && !IsSpace(c) && c != LESS_THAN && c != GREATER_THAN
    ensures Agree(T.StepAttrName(t, c, kt), S.StepAttrName(s, c, ks))
  {
    assert s.state.AttrName?;
  }

  lemma AttrNameCloses(t: T.Machine, s: S.Machine, kt: bytes -> bool, ks: bytes -> bool)
    requires t.state.AttrName? && T.Valid(t) && Agree(t, s)
    ensures Agree(T.StepAttrName(t, GREATER_THAN, kt), S.StepAttrName(s, GREATER_THAN, ks))
  {
    assert s.state.AttrName?;
    DispatchAttrAgree(t, s, t.lastTag, t.lastAttr, None);
    var x := T.DispatchAttr(t, t.lastTag, t.lastAttr, None);
    var y := S.DispatchAttr(s, s.lastTag, s.lastAttr, None);
    FinishAgree(x, y, t.lastTag, kt, ks);
    AfterTagAgree(t.lastTag);
    assert T.StepAttrName(t, GREATER_THAN, kt) == T.FinishTag(x, t.lastTag, kt).(state := T.AfterTag(t.lastTag));
    assert S.StepAttrName(s, GREATER_THAN, ks) == S.FinishTag(y, s.lastTag, ks).(state := S.AfterTag(s.lastTag));
  }

  lemma AttrNameSlashAgree(t: T.Machine, s: S.Machine, c: byte, kt: bytes -> bool, ks: bytes -> bool)
    requires t.state.AttrNameSlash? && T.Valid(t) && Agree(t, s)
    ensures Agree(T.StepAttrNameSlash(t, c, kt), S.StepAttrNameSlash(s, c, ks))
  {
    assert s.state.AttrNameSlash?;
    if c == GREATER_THAN {
      AttrNameSlashCloses(t, s, kt, ks);
    } else {
      AttrNameSlashOpen(t, s, c, kt, ks);
    }
  }

  lemma AttrNameSlashOpen(t: T.Machine, s: S.Machine, c: byte, kt: bytes -> bool, ks: bytes -> bool)
    requires t.state.AttrNameSlash? && T.Valid(t) && Agree(t, s) && c != GREATER_THAN
    ensures Agree(T.StepAttrNameSlash(t, c, kt), S.StepAttrNameSlash(s, c, ks))
  {
    if IsSpace(c) {
      AttrNameSlashSpace(t, s, c, kt, ks);
    } else if c == LESS_THAN {
      AttrNameSlashRestart(t, s, kt, ks);
    } else {
      AttrNameSlashOther(t, s, c, kt, ks);
    }
  }

  lemma AttrNameSlashSpace(t: T.Machine, s: S.Machine, c: byte, kt: bytes -> bool, ks: bytes -> bool)
    requires t.state.AttrNameSlash? && T.Valid(t) && Agree(t, s) && IsSpace(c)
    ensures Agree(T.StepAttrNameSlash(t, c, kt), S.StepAttrNameSlash(s, c, ks))
  {
    assert s.state.AttrNameSlash?;
    assert T.WithAttr(t, t.lastAttr + [SLASH], None) == S.WithAttr(s, s.lastAttr + [SLASH], None);
  }

  lemma AttrNameSlashRestart(t: T.Machine, s: S.Machine, kt: bytes -> bool, ks: bytes -> bool)
    requires t.state.AttrNameSlash? && T.Valid(t) && Agree(t, s)
    ensures Agree(T.StepAttrNameSlash(t, LESS_THAN, kt), S.StepAttrNameSlash(s, LESS_THAN, ks))
  {
    assert s.state.AttrNameSlash?;
    assert T.WithAttr(t, t.lastAttr, None) == S.WithAttr(s, s.lastAttr, None);
  }

  lemma AttrNameSlashOther(t: T.Machine, s: S.Machine, c: byte, kt: bytes -> bool, ks: bytes -> bool)
    requires t.state.AttrNameSlash? && T.Valid(t) && Agree(t, s) && !IsSpace(c) && c != LESS_THAN && c != GREATER_THAN
    ensures Agree(T.StepAttrNameSlash(t, c, kt), S.StepAttrNameSlash(s, c, ks))
  {
    assert s.state.AttrNameSlash?;
  }

  lemma AttrNameSlashCloses(t: T.Machine, s: S.Machine, kt: bytes -> bool, ks: bytes -> bool)
    requires t.state.AttrNameSlash? && T.Valid(t) && Agree(t, s)
    ensures Agree(T.StepAttrNameSlash(t, GREATER_THAN, kt), S.StepAttrNameSlash(s, GREATER_THAN, ks))
  {
    assert s.state.AttrNameSlash?;
    DispatchAttrAgree(t, s, t.lastTag, t.lastAttr, None);
    var x := T.DispatchAttr(t, t.lastTag, t.lastAttr, None);
    var y := S.DispatchAttr(s, s.lastTag, s.lastAttr, None);
    FinishAgree(x, y, t.lastTag, kt, ks);
    AfterTagAgree(t.lastTag);
    assert T.StepAttrNameSlash(t, GREATER_THAN, kt) == T.FinishTag(x, t.lastTag, kt).(state := Content);
    assert S.StepAttrNameSlash(s, GREATER_THAN, ks) == S.FinishTag(y, s.lastTag, ks).(state := Content);
  }

  lemma AttrValueAgree(t: T.Machine, s: S.Machine, c: byte, kt: bytes -> bool, ks: bytes -> bool)
    requires t.state.AttrValue? && T.Valid(t) && Agree(t, s)
    ensures Agree(T.StepAttrValue(t, c, kt), S.StepAttrValue(s, c, ks))
  {
    assert s.state.AttrValue?;
    if c == GREATER_THAN {
      AttrValueCloses(t, s, kt, ks);
    } else {
      AttrValueOpen(t, s, c, kt, ks);
    }
  }

  lemma AttrValueOpen(t: T.Machine, s: S.Machine, c: byte, kt: bytes -> bool, ks: bytes -> bool)
    requires t.state.AttrValue? && T.Valid(t) && Agree(t, s) && c != GREATER_THAN
    ensures Agree(T.StepAttrValue(t, c, kt), S.StepAttrValue(s, c, ks))
  {
    if IsSpace(c) {
      AttrValueSpace(t, s, c, kt, ks);
    } else if c == LESS_THAN {
      AttrValueRestart(t, s, kt, ks);
    } else {
      AttrValueOther(t, s, c, kt, ks);
    }
  }

  lemma AttrValueSpace(t: T.Machine, s: S.Machine, c: byte, kt: bytes -> bool, ks: bytes -> bool)
    requires t.state.AttrValue? && T.Valid(t) && Agree(t, s) && IsSpace(c)
    ensures Agree(T.StepAttrValue(t, c, kt), S.StepAttrValue(s, c, ks))
  {
    assert s.state.AttrValue?;
    assert T.WithAttr(t, t.lastAttr, t.lastValue) == S.WithAttr(s, s.lastAttr, s.lastValue);
  }

  lemma AttrValueRestart(t: T.Machine, s: S.Machine, kt: bytes -> bool, ks: bytes -> bool)
    requires t.state.AttrValue? && T.Valid(t) && Agree(t, s)
    ensures Agree(T.StepAttrValue(t, LESS_THAN, kt), S.StepAttrValue(s, LESS_THAN, ks))
  {
    assert s.state.AttrValue?;
    assert T.WithAttr(t, t.lastAttr, t.lastValue) == S.WithAttr(s, s.lastAttr, s.lastValue);
  }

  lemma AttrValueOther(t: T.Machine, s: S.Machine, c: byte, kt: bytes -> bool, ks: bytes -> bool)
    requires t.state.AttrValue? && T.Valid(t) && Agree(t, s) && !IsSpace(c) && c != LESS_THAN && c != GREATER_THAN
    ensures Agree(T.StepAttrValue(t, c, kt), S.StepAttrValue(s, c, ks))
  {
    assert s.state.AttrValue?;
  }

  lemma AttrValueCloses(t: T.Machine, s: S.Machine, kt: bytes -> bool, ks: bytes -> bool)
    requires t.state.AttrValue? && T.Valid(t) && Agree(t, s)
    ensures Agree(T.StepAttrValue(t, GREATER_THAN, kt), S.StepAttrValue(s, GREATER_THAN, ks))
  {
    assert s.state.AttrValue?;
    DispatchAttrAgree(t, s, t.lastTag, t.lastAttr, t.lastValue);
    var x := T.DispatchAttr(t, t.lastTag, t.lastAttr, t.lastValue);
    var y := S.DispatchAttr(s, s.lastTag, s.lastAttr, s.lastValue);
    FinishAgree(x, y, t.lastTag, kt, ks);
    AfterTagAgree(t.lastTag);
    assert T.StepAttrValue(t, GREATER_THAN, kt) == T.FinishTag(x, t.lastTag, kt).(state := T.AfterTag(t.lastTag));
    assert S.StepAttrValue(s, GREATER_THAN, ks) == S.FinishTag(y, s.lastTag, ks).(state := S.AfterTag(s.lastTag));
  }

  lemma AttrQuoteAgree(t: T.Machine, s: S.Machine, c: byte)
    requires t.state.AttrQuote? && T.Valid(t) && Agree(t, s)
    ensures Agree(T.StepAttrQuote(t, c), S.StepAttrQuote(s, c))
  {
    assert s.state.AttrQuote?;
  }

  lemma AttrValueSlashAgree(t: T.Machine, s: S.Machine, c: byte, kt: bytes -> bool, ks: bytes -> bool)
    requires t.state.AttrValueSlash? && T.Valid(t) && Agree(t, s)
    ensures Agree(T.StepAttrValueSlash(t, c, kt), S.StepAttrValueSlash(s, c, ks))
  {
    assert s.state.AttrValueSlash?;
    if c == GREATER_THAN {
      AttrValueSlashCloses(t, s, kt, ks);
    } else {
      AttrValueSlashOpen(t, s, c, kt, ks);
    }
  }

  lemma AttrValueSlashOpen(t: T.Machine, s: S.Machine, c: byte, kt: bytes -> bool, ks: bytes -> bool)
    requires t.state.AttrValueSlash? && T.Valid(t) && Agree(t, s) && c != GREATER_THAN
    ensures Agree(T.StepAttrValueSlash(t, c, kt), S.StepAttrValueSlash(s, c, ks))
  {
    if IsSpace(c) {
      AttrValueSlashSpace(t, s, c, kt, ks);
    } else if c == LESS_THAN {
      AttrValueSlashRestart(t, s, kt, ks);
    } else {
      AttrValueSlashOther(t, s, c, kt, ks);
    }
  }

  lemma AttrValueSlashSpace(t: T.Machine, s: S.Machine, c: byte, kt: bytes -> bool, ks: bytes -> bool)
    requires t.state.AttrValueSlash? && T.Valid(t) && Agree(t, s) && IsSpace(c)
    ensures Agree(T.StepAttrValueSlash(t, c, kt), S.StepAttrValueSlash(s, c, ks))
  {
    assert s.state.AttrValueSlash?;
    assert T.WithAttr(t, t.lastAttr, Some(t.lastValue.value + [SLASH])) == S.WithAttr(s, s.lastAttr, Some(s.lastValue.value + [SLASH]));
  }

  lemma AttrValueSlashRestart(t: T.Machine, s: S.Machine, kt: bytes -> bool, ks: bytes -> bool)
    requires t.state.AttrValueSlash? && T.Valid(t) && Agree(t, s)
    ensures Agree(T.StepAttrValueSlash(t, LESS_THAN, kt), S.StepAttrValueSlash(s, LESS_THAN, ks))
  {
    assert s.state.AttrValueSlash?;
    assert T.WithAttr(t, t.lastAttr, t.lastValue) == S.WithAttr(s, s.lastAttr, s.lastValue);
  }

  lemma AttrValueSlashOther(t: T.Machine, s: S.Machine, c: byte, kt: bytes -> bool, ks: bytes -> bool)
    requires t.state.AttrValueSlash? && T.Valid(t) && Agree(t, s) && !IsSpace(c) && c != LESS_THAN && c != GREATER_THAN
    ensures Agree(T.StepAttrValueSlash(t, c, kt), S.StepAttrValueSlash(s, c, ks))
  {
    assert s.state.AttrValueSlash?;
  }

  lemma AttrValueSlashCloses(t: T.Machine, s: S.Machine, kt: bytes -> bool, ks: bytes -> bool)
    requires t.state.AttrValueSlash? && T.Valid(t) && Agree(t, s)
    ensures Agree(T.StepAttrValueSlash(t, GREATER_THAN, kt), S.StepAttrValueSlash(s, GREATER_THAN, ks))
  {
    assert s.state.AttrValueSlash?;
    DispatchAttrAgree(t, s, t.lastTag, t.lastAttr, t.lastValue);
    var x := T.DispatchAttr(t, t.lastTag, t.lastAttr, t.lastValue);
    var y := S.DispatchAttr(s, s.lastTag, s.lastAttr, s.lastValue);
    FinishAgree(x, y, t.lastTag, kt, ks);
    AfterTagAgree(t.lastTag);
    assert T.StepAttrValueSlash(t, GREATER_THAN, kt) == T.FinishTag(x, t.lastTag, kt).(state := T.AfterTag(t.lastTag));
    assert S.StepAttrValueSlash(s, GREATER_THAN, ks) == S.FinishTag(y, s.lastTag, ks).(state := S.AfterTag(s.lastTag));
  }

  lemma CommentAgree(t: T.Machine, s: S.Machine, c: byte)
    requires (t.state.Comment? || t.state.CommentDash? || t.state.CommentDashDash?) && Agree(t, s)
    ensures Agree(T.StepComment(t, c), S.StepComment(s, c))
  {
  }

  lemma CloseRawAgree(t: T.Machine, s: S.Machine, tag: bytes, kt: bytes -> bool, ks: bytes -> bool)
    requires tag == SLASH_SCRIPT || tag == SLASH_STYLE
    requires Agree(t.(state := Content), s.(state := Content))
    ensures Agree(T.CloseRawText(t, tag, kt), S.CloseRawText(s, tag, ks))
  {
    var x := T.StartTag(t.(lastTag := tag), tag).m;
    var y := S.StartTag(s.(lastTag := tag), tag);
    assert x.lastTag == tag && x.lastAttr == t.lastAttr && x.lastValue == t.lastValue;
    assert y.lastTag == tag && y.lastAttr == s.lastAttr && y.lastValue == s.lastValue;
    var tr := T.CloseRawText(t, tag, kt);
    var sr := S.CloseRawText(s, tag, ks);
    assert tr == T.FinishTag(x, tag, kt).(state := Content);
    assert sr == S.FinishTag(y, tag, ks).(state := Content);
  }

  lemma ScriptAgree(t: T.Machine, s: S.Machine, c: byte, kt: bytes -> bool, ks: bytes -> bool)
    requires InScript(t.state) && Agree(t, s)
    ensures Agree(T.StepScript(t, c, kt), S.StepScript(s, c, ks))
  {
    if t.state.ScriptTagSlashScript? && c == GREATER_THAN {
      assert s.state.ScriptTagSlashScript?;
      CloseRawAgree(t, s, SLASH_SCRIPT, kt, ks);
    } else {
      ScriptScans(t, s, c, kt, ks);
    }
  }

  lemma ScriptScans(t: T.Machine, s: S.Machine, c: byte, kt: bytes -> bool, ks: bytes -> bool)
    requires InScript(t.state) && Agree(t, s)
    requires !(t.state.ScriptTagSlashScript? && c == GREATER_THAN)
    ensures Agree(T.StepScript(t, c, kt), S.StepScript(s, c, ks))
  {
  }

  lemma StyleAgree(t: T.Machine, s: S.Machine, c: byte, kt: bytes -> bool, ks: bytes -> bool)
    requires InStyle(t.state) && Agree(t, s)
    ensures Agree(T.StepStyle(t, c, kt), S.StepStyle(s, c, ks))
  {
    if t.state.StyleTagSlashStyle? && c == GREATER_THAN {
      assert s.state.StyleTagSlashStyle?;
      assert S.StepStyle(s, c, ks) == S.CloseRawText(s, SLASH_STYLE, ks);
      CloseRawAgree(t, s, SLASH_STYLE, kt, ks);
    } else {
      StyleScans(t, s, c, kt, ks);
    }
  }

  lemma StyleScans(t: T.Machine, s: S.Machine, c: byte, kt: bytes -> bool, ks: bytes -> bool)
    requires InStyle(t.state) && Agree(t, s)
    requires !(t.state.StyleTagSlashStyle? && c == GREATER_THAN)
    ensures Agree(T.StepStyle(t, c, kt), S.StepStyle(s, c, ks))
  {
  }

  /** One byte keeps the tokenizers agreeing, unless title_squeezer.py raises on it. */
  lemma StepAgree(t: T.Machine, s: S.Machine, c: byte, kt: bytes -> bool, ks: bytes -> bool)
    requires T.Valid(t) && Agree(t, s) && !T.Step(t, c, kt).raised
    ensures S.Valid(s) && Agree(T.Step(t, c, kt).m, S.Step(s, c, ks))
  {
    AgreeValid(t, s);
    if t.state.TagSlash? || t.state.TagBang? || t.state.TagBangDash? || InTagName(t.state) {
      TagStepAgree(t, s, c, kt, ks);
    } else if InAttr(t.state) {
      AttrStepAgree(t, s, c, kt, ks);
    } else if InScript(t.state) || InStyle(t.state) {
      RawStepAgree(t, s, c, kt, ks);
    } else {
      TextStepAgree(t, s, c, kt, ks);
    }
  }

  lemma TextStepAgree(t: T.Machine, s: S.Machine, c: byte, kt: bytes -> bool, ks: bytes -> bool)
    requires t.state.Content? || t.state.ContentSpace? || t.state.Tag?
          || t.state.Comment? || t.state.CommentDash? || t.state.CommentDashDash?
    requires T.Valid(t) && S.Valid(s) && Agree(t, s)
    ensures Agree(T.Step(t, c, kt).m, S.Step(s, c, ks))
  {
    match t.state
    case Content | ContentSpace => StepContentAgree(t, s, c, kt, ks);
    case Tag => StepTagAgree(t, s, c, kt, ks);
    case Comment | CommentDash | CommentDashDash => StepCommentAgree(t, s, c, kt, ks);
  }

  lemma StepContentAgree(t: T.Machine, s: S.Machine, c: byte, kt: bytes -> bool, ks: bytes -> bool)
    requires t.state.Content? || t.state.ContentSpace?
    requires T.Valid(t) && S.Valid(s) && Agree(t, s)
    ensures Agree(T.Step(t, c, kt).m, S.Step(s, c, ks))
  {
    assert !InScript(t.state) && !InStyle(t.state) && !InScript(s.state) && !InStyle(s.state);
    assert s.state.Content?;
    assert T.Step(t, c, kt).m == T.StepContent(t, c);
    assert S.Step(s, c, ks) == S.StepContent(s, c);
    ContentAgree(t, s, c);
  }

  lemma StepTagAgree(t: T.Machine, s: S.Machine, c: byte, kt: bytes -> bool, ks: bytes -> bool)
    requires t.state.Tag?
    requires T.Valid(t) && S.Valid(s) && Agree(t, s)
    ensures Agree(T.Step(t, c, kt).m, S.Step(s, c, ks))
  {
    assert !InScript(t.state) && !InStyle(t.state) && !InScript(s.state) && !InStyle(s.state);
    assert s.state.Tag?;
    assert T.Step(t, c, kt).m == T.StepTag(t, c);
    assert S.Step(s, c, ks) == S.StepTag(s, c);
    TagAgree(t, s, c);
  }

  lemma StepCommentAgree(t: T.Machine, s: S.Machine, c: byte, kt: bytes -> bool, ks: bytes -> bool)
    requires t.state.Comment? || t.state.CommentDash? || t.state.CommentDashDash?
    requires T.Valid(t) && S.Valid(s) && Agree(t, s)
    ensures Agree(T.Step(t, c, kt).m, S.Step(s, c, ks))
  {
    assert !InScript(t.state) && !InStyle(t.state) && !InScript(s.state) && !InStyle(s.state);
    assert s.state.Comment? || s.state.CommentDash? || s.state.CommentDashDash?;
    assert T.Step(t, c, kt).m == T.StepComment(t, c);
    assert S.Step(s, c, ks) == S.StepComment(s, c);
    CommentAgree(t, s, c);
  }

  lemma TagStepAgree(t: T.Machine, s: S.Machine, c: byte, kt: bytes -> bool, ks: bytes -> bool)
    requires t.state.TagSlash? || t.state.TagBang? || t.state.TagBangDash? || InTagName(t.state)
    requires T.Valid(t) && S.Valid(s) && Agree(t, s) && !T.Step(t, c, kt).raised
    ensures Agree(T.Step(t, c, kt).m, S.Step(s, c, ks))
  {
    match t.state
    case TagSlash => StepTagSlashAgree(t, s, c, kt, ks);
    case TagBang => StepTagBangAgree(t, s, c, kt, ks);
    case TagBangDash => StepTagBangDashAgree(t, s, c, kt, ks);
    case TagName => StepTagNameAgree(t, s, c, kt, ks);
    case TagNameSlash => StepTagNameSlashAgree(t, s, c, kt, ks);
  }

  lemma StepTagSlashAgree(t: T.Machine, s: S.Machine, c: byte, kt: bytes -> bool, ks: bytes -> bool)
    requires t.state.TagSlash?
    requires T.Valid(t) && S.Valid(s) && Agree(t, s)
    ensures Agree(T.Step(t, c, kt).m, S.Step(s, c, ks))
  {
    assert !InScript(t.state) && !InStyle(t.state) && !InScript(s.state) && !InStyle(s.state);
    assert s.state.TagSlash?;
    assert T.Step(t, c, kt).m == T.StepPrefixed(t, c, [SLASH], None, kt);
    assert S.Step(s, c, ks) == S.StepPrefixed(s, c, [SLASH], None, ks);
    PrefixedAgree(t, s, c, [SLASH], None, kt, ks);
  }

  lemma StepTagBangAgree(t: T.Machine, s: S.Machine, c: byte, kt: bytes -> bool, ks: bytes -> bool)
    requires t.state.TagBang?
    requires T.Valid(t) && S.Valid(s) && Agree(t, s)
    ensures Agree(T.Step(t, c, kt).m, S.Step(s, c, ks))
  {
    assert !InScript(t.state) && !InStyle(t.state) && !InScript(s.state) && !InStyle(s.state);
    assert s.state.TagBang?;
    assert T.Step(t, c, kt).m == T.StepPrefixed(t, c, [BANG], Some(TagBangDash), kt);
    assert S.Step(s, c, ks) == S.StepPrefixed(s, c, [BANG], Some(TagBangDash), ks);
    PrefixedAgree(t, s, c, [BANG], Some(TagBangDash), kt, ks);
  }

  lemma StepTagBangDashAgree(t: T.Machine, s: S.Machine, c: byte, kt: bytes -> bool, ks: bytes -> bool)
    requires t.state.TagBangDash?
    requires T.Valid(t) && S.Valid(s) && Agree(t, s)
    ensures Agree(T.Step(t, c, kt).m, S.Step(s, c, ks))
  {
    assert !InScript(t.state) && !InStyle(t.state) && !InScript(s.state) && !InStyle(s.state);
    assert s.state.TagBangDash?;
    assert T.Step(t, c, kt).m == T.StepPrefixed(t, c, [BANG, DASH], Some(Comment), kt);
    assert S.Step(s, c, ks) == S.StepPrefixed(s, c, [BANG, DASH], Some(Comment), ks);
    PrefixedAgree(t, s, c, [BANG, DASH], Some(Comment), kt, ks);
  }

  lemma StepTagNameAgree(t: T.Machine, s: S.Machine, c: byte, kt: bytes -> bool, ks: bytes -> bool)
    requires t.state.TagName?
    requires T.Valid(t) && S.Valid(s) && Agree(t, s) && !T.Step(t, c, kt).raised
    ensures Agree(T.Step(t, c, kt).m, S.Step(s, c, ks))
  {
    assert !InScript(t.state) && !InStyle(t.state) && !InScript(s.state) && !InStyle(s.state);
    assert s.state.TagName?;
    assert T.Step(t, c, kt) == T.StepTagName(t, c, kt);
    assert S.Step(s, c, ks) == S.StepTagName(s, c, ks);
    TagNameAgree(t, s, c, kt, ks);
  }

  lemma StepTagNameSlashAgree(t: T.Machine, s: S.Machine, c: byte, kt: bytes -> bool, ks: bytes -> bool)
    requires t.state.TagNameSlash?
    requires T.Valid(t) && S.Valid(s) && Agree(t, s) && !T.Step(t, c, kt).raised
    ensures Agree(T.Step(t, c, kt).m, S.Step(s, c, ks))
  {
    assert !InScript(t.state) && !InStyle(t.state) && !InScript(s.state) && !InStyle(s.state);
    assert s.state.TagNameSlash?;
    assert T.Step(t, c, kt) == T.StepTagNameSlash(t, c, kt);
    assert S.Step(s, c, ks) == S.StepTagNameSlash(s, c, ks);
    TagNameSlashAgree(t, s, c, kt, ks);
  }

  lemma AttrStepAgree(t: T.Machine, s: S.Machine, c: byte, kt: bytes -> bool, ks: bytes -> bool)
    requires InAttr(t.state)
    requires T.Valid(t) && S.Valid(s) && Agree(t, s)
    ensures Agree(T.Step(t, c, kt).m, S.Step(s, c, ks))
  {
    match t.state
    case AttrName => StepAttrNameAgree(t, s, c, kt, ks);
    case AttrNameSlash => StepAttrNameSlashAgree(t, s, c, kt, ks);
    case AttrValue => StepAttrValueAgree(t, s, c, kt, ks);
    case AttrQuote => StepAttrQuoteAgree(t, s, c, kt, ks);
    case AttrValueSlash => StepAttrValueSlashAgree(t, s, c, kt, ks);
  }

  lemma StepAttrNameAgree(t: T.Machine, s: S.Machine, c: byte, kt: bytes -> bool, ks: bytes -> bool)
    requires t.state.AttrName?
    requires T.Valid(t) && S.Valid(s) && Agree(t, s)
    ensures Agree(T.Step(t, c, kt).m, S.Step(s, c, ks))
  {
    assert !InScript(t.state) && !InStyle(t.state) && !InScript(s.state) && !InStyle(s.state);
    assert s.state.AttrName?;
    assert T.Step(t, c, kt).m == T.StepAttrName(t, c, kt);
    assert S.Step(s, c, ks) == S.StepAttrName(s, c, ks);
    AttrNameAgree(t, s, c, kt, ks);
  }

  lemma StepAttrNameSlashAgree(t: T.Machine, s: S.Machine, c: byte, kt: bytes -> bool, ks: bytes -> bool)
    requires t.state.AttrNameSlash?
    requires T.Valid(t) && S.Valid(s) && Agree(t, s)
    ensures Agree(T.Step(t, c, kt).m, S.Step(s, c, ks))
  {
    assert !InScript(t.state) && !InStyle(t.state) && !InScript(s.state) && !InStyle(s.state);
    assert s.state.AttrNameSlash?;
    assert T.Step(t, c, kt).m == T.StepAttrNameSlash(t, c, kt);
    assert S.Step(s, c, ks) == S.StepAttrNameSlash(s, c, ks);
    AttrNameSlashAgree(t, s, c, kt, ks);
  }

  lemma StepAttrValueAgree(t: T.Machine, s: S.Machine, c: byte, kt: bytes -> bool, ks: bytes -> bool)
    requires t.state.AttrValue?
    requires T.Valid(t) && S.Valid(s) && Agree(t, s)
    ensures Agree(T.Step(t, c, kt).m, S.Step(s, c, ks))
  {
    assert !InScript(t.state) && !InStyle(t.state) && !InScript(s.state) && !InStyle(s.state);
    assert s.state.AttrValue?;
    assert T.Step(t, c, kt).m == T.StepAttrValue(t, c, kt);
    assert S.Step(s, c, ks) == S.StepAttrValue(s, c, ks);
    AttrValueAgree(t, s, c, kt, ks);
  }

  lemma StepAttrQuoteAgree(t: T.Machine, s: S.Machine, c: byte, kt: bytes -> bool, ks: bytes -> bool)
    requires t.state.AttrQuote?
    requires T.Valid(t) && S.Valid(s) && Agree(t, s)
    ensures Agree(T.Step(t, c, kt).m, S.Step(s, c, ks))
  {
    assert !InScript(t.state) && !InStyle(t.state) && !InScript(s.state) && !InStyle(s.state);
    assert s.state.AttrQuote?;
    assert T.Step(t, c, kt).m == T.StepAttrQuote(t, c);
    assert S.Step(s, c, ks) == S.StepAttrQuote(s, c);
    AttrQuoteAgree(t, s, c);
  }

  lemma StepAttrValueSlashAgree(t: T.Machine, s: S.Machine, c: byte, kt: bytes -> bool, ks: bytes -> bool)
    requires t.state.AttrValueSlash?
    requires T.Valid(t) && S.Valid(s) && Agree(t, s)
    ensures Agree(T.Step(t, c, kt).m, S.Step(s, c, ks))
  {
    assert s.state.AttrValueSlash?;
    TStepAttrValueSlash(t, c, kt);
    SStepAttrValueSlash(s, c, ks);
    AttrValueSlashAgree(t, s, c, kt, ks);
  }

  lemma TStepAttrValueSlash(t: T.Machine, c: byte, kt: bytes -> bool)
    requires t.state.AttrValueSlash? && T.Valid(t)
    ensures T.Step(t, c, kt).m == T.StepAttrValueSlash(t, c, kt)
  {
    assert !InScript(t.state) && !InStyle(t.state);
  }

  lemma SStepAttrValueSlash(s: S.Machine, c: byte, ks: bytes -> bool)
    requires s.state.AttrValueSlash? && S.Valid(s)
    ensures S.Step(s, c, ks) == S.StepAttrValueSlash(s, c, ks)
  {
    assert !InScript(s.state) && !InStyle(s.state);
  }

  lemma RawStepAgree(t: T.Machine, s: S.Machine, c: byte, kt: bytes -> bool, ks: bytes -> bool)
    requires InScript(t.state) || InStyle(t.state)
    requires T.Valid(t) && S.Valid(s) && Agree(t, s)
    ensures Agree(T.Step(t, c, kt).m, S.Step(s, c, ks))
  {
    if InScript(t.state) {
      ScriptStepAgree(t, s, c, kt, ks);
    } else {
      StyleStepAgree(t, s, c, kt, ks);
    }
  }

  lemma ScriptStepAgree(t: T.Machine, s: S.Machine, c: byte, kt: bytes -> bool, ks: bytes -> bool)
    requires InScript(t.state) && T.Valid(t) && S.Valid(s) && Agree(t, s)
    ensures Agree(T.Step(t, c, kt).m, S.Step(s, c, ks))
  {
    assert InScript(s.state);
    assert T.Step(t, c, kt).m == T.StepScript(t, c, kt);
    assert S.Step(s, c, ks) == S.StepScript(s, c, ks);
    ScriptAgree(t, s, c, kt, ks);
  }

  lemma StyleStepAgree(t: T.Machine, s: S.Machine, c: byte, kt: bytes -> bool, ks: bytes -> bool)
    requires InStyle(t.state) && T.Valid(t) && S.Valid(s) && Agree(t, s)
    ensures Agree(T.Step(t, c, kt).m, S.Step(s, c, ks))
  {
    assert InStyle(s.state);
    assert T.Step(t, c, kt).m == T.StepStyle(t, c, kt);
    assert S.Step(s, c, ks) == S.StepStyle(s, c, ks);
    StyleAgree(t, s, c, kt, ks);
  }

  /**
   * Fed the same bytes from agreeing points, the tokenizers still agree at
   * the end, unless title_squeezer.py raised on the way.
   */
  lemma {:induction false} RunAgree(t: T.Machine, s: S.Machine, data: bytes, kt: bytes -> bool, ks: bytes -> bool)
    requires T.Valid(t) && Agree(t, s)
    ensures S.Valid(s)
    ensures !T.Run(t, data, kt).raised ==> Agree(T.Run(t, data, kt).m, S.Run(s, data, ks))
    decreases |data|
  {
    AgreeValid(t, s);
    if data != [] {
      var o := T.Step(t, data[0], kt);
      if !o.raised {
        StepAgree(t, s, data[0], kt, ks);
        var s1 := S.Step(s, data[0], ks);
        assert T.Run(t, data, kt) == T.Run(o.m, data[1..], kt);
        assert S.Run(s, data, ks) == S.Run(s1, data[1..], ks);
        RunAgree(o.m, s1, data[1..], kt, ks);
      }
    }
  }

  /** Two fresh squeezers fed the same document tokenize it alike until title_squeezer.py raises. */
  lemma FeedAgree(defaultCharset: bytes, data: bytes, kt: bytes -> bool, ks: bytes -> bool)
    ensures !T.Run(T.Init(defaultCharset), data, kt).raised ==>
      Agree(T.Run(T.Init(defaultCharset), data, kt).m, S.Run(S.Init(), data, ks))
  {
    InitAgree(defaultCharset);
    RunAgree(T.Init(defaultCharset), S.Init(), data, kt, ks);
  }

  /**
   * Whitespace runs are where the titles part: from the same title inside
   * `<title>`, two or more whitespace bytes give title_squeezer.py one
   * space and squeeze.py all of them.
   */
  lemma WhitespaceDiffers(t: T.Machine, s: S.Machine, ws: bytes, kt: bytes -> bool, ks: bytes -> bool)
    requires t.state.Content? && s.state.Content?
    requires t.insideTitle && s.insideTitle && t.title == s.title
    requires |ws| >= 2 && forall i :: 0 <= i < |ws| ==> IsSpace(ws[i])
    ensures T.Run(t, ws, kt).m.title == Some(OrEmpty(t.title) + [SPACE])
    ensures S.Run(s, ws, ks).title == Some(OrEmpty(s.title) + ws)
    ensures T.Run(t, ws, kt).m.title != S.Run(s, ws, ks).title
  {
    TitleSqueezerSpaces(t, ws, kt);
    SqueezeSpaces(s, ws, ks);
    assert |OrEmpty(t.title) + [SPACE]| < |OrEmpty(s.title) + ws|;
  }

  lemma TitleSqueezerSpaces(t: T.Machine, ws: bytes, kt: bytes -> bool)
    requires t.state.Content? && t.insideTitle
    requires ws != [] && forall i :: 0 <= i < |ws| ==> IsSpace(ws[i])
    ensures T.Run(t, ws, kt).m.title == Some(OrEmpty(t.title) + [SPACE])
  {
    TL.WhitespaceRunCollapses(t, ws, kt);
    if t.title.None? {
      assert OrEmpty(t.title) + [SPACE] == [SPACE];
    }
  }

  lemma SqueezeSpaces(s: S.Machine, ws: bytes, ks: bytes -> bool)
    requires s.state.Content? && s.insideTitle
    requires ws != [] && forall i :: 0 <= i < |ws| ==> IsSpace(ws[i])
    ensures S.Run(s, ws, ks).title == Some(OrEmpty(s.title) + ws)
  {
    NoLessThanInSpace(ws);
    SL.ContentVerbatim(s, ws, ks);
    if s.title.None? {
      assert OrEmpty(s.title) + ws == ws;
    }
  }

  lemma NoLessThanInSpace(ws: bytes)
    requires forall i :: 0 <= i < |ws| ==> IsSpace(ws[i])
    ensures LESS_THAN !in ws
  {
  }

  /**
   * `<title></title>` at a point where no title was captured raises in
   * title_squeezer.py, while squeeze.py reads it without effect on the title.
   */
  lemma EmptyTitleDiffers(t: T.Machine, s: S.Machine, kt: bytes -> bool, ks: bytes -> bool)
    requires t.state.Content? && t.title.None? && T.Valid(t)
    requires s.state.Content?
    ensures
      var doc := [LESS_THAN] + TITLE + [GREATER_THAN] + [LESS_THAN] + SLASH_TITLE + [GREATER_THAN];
      && T.Run(t, doc, kt).raised
      && S.Run(s, doc, ks).title == s.title && !S.Run(s, doc, ks).insideTitle
  {
    TL.EmptyTitleRaises(t, kt);
    SL.EmptyTitleCloses(s, ks);
  }
}
