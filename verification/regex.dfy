/**
 * What the service needs from Python's `re` module. Searching is an
 * oracle: a `Searcher` takes a pattern, the flags and a text and returns
 * the leftmost match, if any. `re.escape` is modelled exactly.
 */
module Regex {
  import opened Wrappers

  datatype Flags = Flags(ignoreCase: bool, dotAll: bool)

  const NoFlags := Flags(false, false)
  const IgnoreCase := Flags(true, false)
  const IgnoreCaseDotAll := Flags(true, true)

  /**
   * A match object: the matched text (`group(0)`) and one entry per
   * capturing group of the pattern, `None` for a group that did not take
   * part in the match.
   */
  datatype Match = Match(whole: string, groups: seq<Option<string>>)

  /** `re.search(pattern, text, flags)`. */
  type Searcher = (string, Flags, string) -> Option<Match>

  /** `m.group(i)` for `i >= 1`; a group the pattern does not have reads as `None`. */
  function Group(m: Match, i: nat): (g: Option<string>)
    requires i >= 1
    ensures i <= |m.groups| ==> g == m.groups[i - 1]
    ensures i > |m.groups| ==> g.None?
  {
    if i <= |m.groups| then m.groups[i - 1] else None
  }

  /** The characters `re.escape` puts a backslash before. */
  predicate IsSpecial(c: char) {
    c in "()[]{}?*+-|^$\\.&~# \t\n\r\U{000B}\U{000C}"
  }

  /** `re.escape(s)`: a pattern matching exactly the literal text `s`. */
  function Escape(s: string): (r: string)
    ensures |r| >= |s|
  {
    if |s| == 0 then []
    else (if IsSpecial(s[0]) then ['\\', s[0]] else [s[0]]) + Escape(s[1..])
  }

  /** What the regex reader does with an escaped literal: a backslash stands for the character after it. */
  function Unescape(r: string): (s: string)
    decreases |r|
  {
    if |r| == 0 then []
    else if r[0] == '\\' && |r| >= 2 then [r[1]] + Unescape(r[2..])
    else [r[0]] + Unescape(r[1..])
  }

  /** Escaping loses nothing: the literal read back from the escaped text is the text. */
  lemma {:induction false} UnescapeEscape(s: string)
    ensures Unescape(Escape(s)) == s
  {
    if |s| > 0 {
      UnescapeEscape(s[1..]);
      var tail := Escape(s[1..]);
      if IsSpecial(s[0]) {
        assert Escape(s) == ['\\', s[0]] + tail;
        assert Escape(s)[2..] == tail;
      } else {
        assert Escape(s) == [s[0]] + tail;
        assert Escape(s)[1..] == tail;
        assert s[0] != '\\';
      }
      assert s == [s[0]] + s[1..];
    }
  }

  /** A name without special characters is its own pattern. */
  lemma {:induction false} EscapePlain(s: string)
    requires forall i :: 0 <= i < |s| ==> !IsSpecial(s[i])
    ensures Escape(s) == s
  {
    if |s| > 0 {
      EscapePlain(s[1..]);
      assert s == [s[0]] + s[1..];
    }
  }
}
