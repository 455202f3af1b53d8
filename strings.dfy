/** The parts of Python's `str` that the stream decoder relies on. */
module Strings {

  /** Python's `str.isspace` for one character: the characters that
      `str.strip()` with no argument removes (the ASCII controls TAB to CR,
      the file/group/record/unit separators, SPACE, NEL, NBSP and the
      Unicode space separators and line/paragraph separators). */
  predicate IsSpace(c: char) {
    ('\U{0009}' <= c <= '\U{000D}') || ('\U{001C}' <= c <= '\U{0020}') ||
    c == '\U{0085}' || c == '\U{00A0}' || c == '\U{1680}' ||
    ('\U{2000}' <= c <= '\U{200A}') || c == '\U{2028}' || c == '\U{2029}' ||
    c == '\U{202F}' || c == '\U{205F}' || c == '\U{3000}'
  }

  predicate AllSpace(s: string) {
    forall i :: 0 <= i < |s| ==> IsSpace(s[i])
  }

  /** `s.rstrip()`: the longest prefix of `s` that does not end in whitespace. */
  function RStrip(s: string): string {
    if s == [] || !IsSpace(s[|s| - 1]) then s else RStrip(s[..|s| - 1])
  }

  /** `s.lstrip()`: the longest suffix of `s` that does not start with whitespace. */
  function LStrip(s: string): string {
    if s == [] || !IsSpace(s[0]) then s else LStrip(s[1..])
  }

  /** `s.strip()`: whitespace removed from both ends. */
  function Strip(s: string): string {
    RStrip(LStrip(s))
  }

  /** `rstrip` removes a whitespace suffix and nothing more: what is left
      is a prefix that is empty or ends in a non-space character. */
  lemma {:induction false} RStripRemovesTrailingSpace(s: string)
    ensures RStrip(s) <= s
    ensures AllSpace(s[|RStrip(s)|..])
    ensures RStrip(s) == [] || !IsSpace(RStrip(s)[|RStrip(s)| - 1])
  {
    if s != [] && IsSpace(s[|s| - 1]) {
      var t := s[..|s| - 1];
      RStripRemovesTrailingSpace(t);
      assert s[|RStrip(s)|..] == t[|RStrip(t)|..] + [s[|s| - 1]];
    }
  }

  /** `lstrip` removes a whitespace prefix and nothing more: what is left
      is a suffix that is empty or starts with a non-space character. */
  lemma {:induction false} LStripRemovesLeadingSpace(s: string)
    ensures |LStrip(s)| <= |s| && LStrip(s) == s[|s| - |LStrip(s)|..]
    ensures AllSpace(s[..|s| - |LStrip(s)|])
    ensures LStrip(s) == [] || !IsSpace(LStrip(s)[0])
  {
    if s != [] && IsSpace(s[0]) {
      var t := s[1..];
      LStripRemovesLeadingSpace(t);
      assert s[..|s| - |LStrip(s)|] == [s[0]] + t[..|t| - |LStrip(t)|];
    }
  }

  /** Right-stripping is determined by its three properties: a text that is
      `p` followed by whitespace, where `p` does not end in whitespace,
      strips to exactly `p`. */
  lemma RStripOfPadded(p: string, w: string)
    requires AllSpace(w)
    requires p == [] || !IsSpace(p[|p| - 1])
    ensures RStrip(p + w) == p
  {
    var s := p + w;
    RStripRemovesTrailingSpace(s);
    assert p == s[..|p|];
  }

  /** A text that starts with a non-space character strips like `rstrip`. */
  lemma StripOfNonSpaceStart(s: string)
    requires s != [] && !IsSpace(s[0])
    ensures Strip(s) == RStrip(s)
  {
  }
}
