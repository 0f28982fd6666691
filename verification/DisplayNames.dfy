/** Display names: how one is printed before an address, and how a reader takes it from
    what was printed. Nothing of a name is lost but the difference of tabs and spaces. */
module DisplayNames {
  import opened Text
  import opened RecipientLexer

  // ------------------------------------------------------------ printing

  function ReplaceTabs(s: string): (r: string)
    ensures |r| == |s| && forall i :: 0 <= i < |s| ==> r[i] == if s[i] == '\t' then ' ' else s[i]
  {
    seq(|s|, i requires 0 <= i < |s| => if s[i] == '\t' then ' ' else s[i])
  }

  /** The white space that the host language's trim removes. */
  predicate HostWhite(c: char) {
    || '\t' <= c <= '\r' || c == ' ' || c == '\U{A0}' || c == '\U{1680}' || '\U{2000}' <= c <= '\U{200A}'
    || c == '\U{2028}' || c == '\U{2029}' || c == '\U{202F}' || c == '\U{205F}' || c == '\U{3000}' || c == '\U{FEFF}'
  }

  predicate IsSpecial(c: char) {
    c in "()[]<>:;@\\,.\""
  }

  predicate NeedsQuotes(name: string) {
    || (exists i :: 0 <= i < |name| && (IsSpecial(name[i]) || IsControl(name[i])))
    || (name != "" && (HostWhite(name[0]) || HostWhite(name[|name| - 1])))
  }

  function Escape(name: string): string {
    if name == "" then ""
    else (if name[0] == '"' || name[0] == '\\' then ['\\', name[0]] else [name[0]]) + Escape(name[1..])
  }

  function Display(name: string): string {
    if NeedsQuotes(name) then "\"" + Escape(name) + "\"" else name
  }

  // ------------------------------------------------------------ reading

  function SkipPadding(s: string): string {
    if s != "" && IsPadding(s[0]) then SkipPadding(s[1..]) else s
  }

  function DropPadding(s: string): string {
    if s != "" && IsPadding(s[|s| - 1]) then DropPadding(s[..|s| - 1]) else s
  }

  /** The text up to the closing quotation mark; a backslash takes the next character as
      it is. */
  function Unquoted(s: string, escaped: bool): string {
    if s == "" then ""
    else if escaped then [s[0]] + Unquoted(s[1..], false)
    else if s[0] == '\\' then Unquoted(s[1..], true)
    else if s[0] == '"' then ""
    else [s[0]] + Unquoted(s[1..], false)
  }

  /** The name that a text before an angle bracket shows. */
  function NameShown(text: string): string {
    var shown := DropPadding(SkipPadding(text));
    if shown != "" && shown[0] == '"' then Unquoted(shown[1..], false) else shown
  }

  // ------------------------------------------------------------ reading what was printed

  lemma {:induction false} UnquotedEscape(name: string)
    ensures Unquoted(Escape(name) + "\"", false) == name
  {
    var s := Escape(name) + "\"";
    if name != "" {
      var rest := Escape(name[1..]) + "\"";
      UnquotedEscape(name[1..]);
      if name[0] == '"' || name[0] == '\\' {
        assert s[1..][1..] == rest;
      } else {
        assert s[1..] == rest;
      }
    }
  }

  lemma {:induction false} PaddingAround(lead: string, core: string)
    requires forall i :: 0 <= i < |lead| ==> IsPadding(lead[i])
    requires core != "" && !IsPadding(core[0]) && !IsPadding(core[|core| - 1])
    ensures DropPadding(SkipPadding(lead + core + " ")) == core
    decreases |lead|
  {
    var text := lead + core + " ";
    if lead == "" {
      assert text[0] == core[0] && text[..|text| - 1] == core;
      assert DropPadding(core) == core;
    } else {
      assert text[1..] == lead[1..] + core + " ";
      PaddingAround(lead[1..], core);
    }
  }

  lemma DisplayEnds(name: string)
    requires name != ""
    ensures var d := Display(name); d != "" && !IsPadding(d[0]) && !IsPadding(d[|d| - 1])
    ensures (Display(name)[0] == '"') == NeedsQuotes(name)
  {
    if !NeedsQuotes(name) {
      assert !IsSpecial(name[0]);
    }
  }

  /** A printed name, whatever blank space is before it, reads as the name. */
  lemma DisplayReads(lead: string, name: string)
    requires name != "" && forall i :: 0 <= i < |lead| ==> IsPadding(lead[i])
    ensures NameShown(lead + Display(name) + " ") == name
  {
    var d := Display(name);
    DisplayEnds(name);
    PaddingAround(lead, d);
    if NeedsQuotes(name) {
      assert d[1..] == Escape(name) + "\"";
      UnquotedEscape(name);
    }
  }

  /** Different names are printed differently. */
  lemma DisplayIsInjective(a: string, b: string)
    ensures Escape(a) == Escape(b) ==> a == b
    ensures a != "" && b != "" && Display(a) == Display(b) ==> a == b
  {
    UnquotedEscape(a);
    UnquotedEscape(b);
    if a != "" && b != "" {
      DisplayReads("", a);
      DisplayReads("", b);
    }
  }
}
