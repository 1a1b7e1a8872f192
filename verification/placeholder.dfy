/** The placeholder grammar shared by the runner and the validation service:
    a whole string matching the regular expression `\{\w+\}`, where `\w` is
    the ASCII word class `[A-Za-z0-9_]`. */
module Placeholder {

  /** A character of the `\w` class (no Unicode flag is set, so ASCII only). */
  predicate IsWordChar(c: char) {
    ('a' <= c <= 'z') || ('A' <= c <= 'Z') || ('0' <= c <= '9') || c == '_'
  }

  /** `\w+`: a non-empty run of word characters. */
  predicate IsFieldName(name: string) {
    |name| >= 1 && forall i :: 0 <= i < |name| ==> IsWordChar(name[i])
  }

  /** Encloses a name in the placeholder delimiters. */
  function Wrap(name: string): string {
    ['{'] + name + ['}']
  }

  /** `s.matches("\\{\\w+\\}")`: the whole string is `{`, a field name, `}`.
      Such a string has braces only at its two ends and no `/`. */
  predicate IsPlaceholder(s: string)
    ensures IsPlaceholder(s) ==> |s| >= 3 && s[0] == '{' && s[|s| - 1] == '}'
    ensures IsPlaceholder(s) ==> forall i :: 0 <= i < |s| ==> s[i] != '/' && (s[i] == '{' <==> i == 0) && (s[i] == '}' <==> i == |s| - 1)
  {
    if |s| < 2 || s[0] != '{' || s[|s| - 1] != '}' then false
    else
      var name := s[1..|s| - 1];
      assert forall i :: 0 < i < |s| - 1 ==> s[i] == name[i - 1];
      IsFieldName(name)
  }

  /** The grammar read positionally agrees with the grammar read as a
      production: a placeholder is exactly a wrapped field name. */
  lemma PlaceholderIsWrappedName(s: string)
    ensures IsPlaceholder(s) <==> exists name :: IsFieldName(name) && s == Wrap(name)
  {
    if IsPlaceholder(s) {
      assert s == Wrap(s[1..|s| - 1]);
    }
    if exists name :: IsFieldName(name) && s == Wrap(name) {
      var name :| IsFieldName(name) && s == Wrap(name);
      assert s[1..|s| - 1] == name;
    }
  }

  /** The anchored match as a left-to-right scan: opening brace, word
      characters, closing brace, nothing else. */
  method MatchPlaceholder(s: string) returns (m: bool)
    ensures m <==> IsPlaceholder(s)
  {
    if |s| < 3 || s[0] != '{' || s[|s| - 1] != '}' {
      return false;
    }
    var i := 1;
    while i < |s| - 1
      invariant 1 <= i <= |s| - 1
      invariant forall j :: 1 <= j < i ==> IsWordChar(s[j])
    {
      if !IsWordChar(s[i]) {
        assert s[1..|s| - 1][i - 1] == s[i];
        return false;
      }
      i := i + 1;
    }
    return true;
  }

  /** `processPlaceholder`: the name inside a placeholder, or the input
      itself when it is not one. */
  function ProcessPlaceholder(s: string): (r: string)
    ensures IsPlaceholder(s) ==> IsFieldName(r) && Wrap(r) == s
    ensures !IsPlaceholder(s) ==> r == s
  {
    if IsPlaceholder(s) then s[1..|s| - 1] else s
  }

  /** The runner's `!newLevel.equals(level)` test is exactly the placeholder test. */
  lemma ChangedIffPlaceholder(s: string)
    ensures ProcessPlaceholder(s) != s <==> IsPlaceholder(s)
  {
    if IsPlaceholder(s) {
      assert |ProcessPlaceholder(s)| < |s|;
    }
  }

  /** A field name holds no braces, so it is never itself a placeholder. */
  lemma FieldNameIsNotPlaceholder(name: string)
    requires IsFieldName(name)
    ensures !IsPlaceholder(name)
  {
    assert !IsWordChar('{');
  }

  /** Processing twice is processing once. */
  lemma ProcessIdempotent(s: string)
    ensures ProcessPlaceholder(ProcessPlaceholder(s)) == ProcessPlaceholder(s)
  {
    if IsPlaceholder(s) {
      FieldNameIsNotPlaceholder(ProcessPlaceholder(s));
    }
  }

  /** Processing a wrapped field name gives the name back. */
  lemma ProcessWrap(name: string)
    requires IsFieldName(name)
    ensures IsPlaceholder(Wrap(name))
    ensures ProcessPlaceholder(Wrap(name)) == name
  {
    PlaceholderIsWrappedName(Wrap(name));
  }
}
