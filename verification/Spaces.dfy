// White space, and what trimming leaves of a text, as Go's unicode.IsSpace and
// strings.TrimSpace have it.

module Spaces {

  /** The controls from tab to carriage return, and the spaces and separators of Unicode. */
  predicate IsSpace(c: char) {
    var n := c as int;
    || 9 <= n <= 13 || n in {0x20, 0x85, 0xA0, 0x1680, 0x2028, 0x2029, 0x202F, 0x205F, 0x3000}
    || 0x2000 <= n <= 0x200A
  }

  predicate Blank(s: string) { forall i :: 0 <= i < |s| ==> IsSpace(s[i]) }

  function TrimLeft(s: string): string {
    if s != [] && IsSpace(s[0]) then TrimLeft(s[1..]) else s
  }

  function TrimRight(s: string): string {
    if s != [] && IsSpace(s[|s| - 1]) then TrimRight(s[..|s| - 1]) else s
  }

  function Trim(s: string): string { TrimRight(TrimLeft(s)) }

  ghost predicate HasText(s: string) { exists i :: 0 <= i < |s| && !IsSpace(s[i]) }

  // What is left after cutting white space, and what was cut.
  ghost predicate IsTrimmed(s: string, before: string, kept: string, after: string) {
    && s == before + kept + after && Blank(before) && Blank(after)
    && (kept != "" ==> !IsSpace(kept[0]) && !IsSpace(kept[|kept| - 1]))
  }

  lemma {:induction false} TrimLeftCuts(s: string) returns (cut: string)
    ensures s == cut + TrimLeft(s) && Blank(cut)
    ensures TrimLeft(s) != "" ==> !IsSpace(TrimLeft(s)[0])
  {
    hide IsSpace;
    cut := "";
    if s != "" && IsSpace(s[0]) {
      var rest := TrimLeftCuts(s[1..]);
      cut := [s[0]] + rest;
    }
  }

  lemma {:induction false} TrimRightCuts(s: string) returns (cut: string)
    ensures s == TrimRight(s) + cut && Blank(cut)
    ensures TrimRight(s) != "" ==> !IsSpace(TrimRight(s)[|TrimRight(s)| - 1]) && TrimRight(s)[0] == s[0]
  {
    hide IsSpace;
    cut := "";
    if s != "" && IsSpace(s[|s| - 1]) {
      var rest := TrimRightCuts(s[..|s| - 1]);
      cut := rest + [s[|s| - 1]];
    }
  }

  /** Trimming cuts white space off both ends and nothing else; nothing is left
      exactly of a text without any other character. */
  lemma TrimCutsBlanks(s: string)
    ensures exists before, after :: IsTrimmed(s, before, Trim(s), after)
    ensures Trim(s) != "" <==> HasText(s)
  {
    hide IsSpace, TrimLeft, TrimRight;
    var before := TrimLeftCuts(s);
    var after := TrimRightCuts(TrimLeft(s));
    var kept := Trim(s);
    assert IsTrimmed(s, before, kept, after);
    if kept != "" {
      assert s[|before|] == kept[0];
    } else {
      assert s == before + after;
    }
  }
}
