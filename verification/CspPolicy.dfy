/**
  The Content-Security-Policy header and its widening (`security_headers.rs`),
  checked against the parser of Content Security Policy Level 3, section 2.2.1.
 */
module CspPolicy {
  import opened Text

  // ---- the parser of the standard ----------------------------------------------

  datatype Directive = Directive(name: string, values: seq<string>)

  predicate IsAsciiWhitespace(c: char) {
    c == '\t' || c == '\n' || c as int == 0xC || c == '\r' || c == ' '
  }

  /** Length of the run of non-whitespace at the front. */
  function WordEnd(s: string): (n: nat)
    ensures n <= |s|
  {
    if s == "" || IsAsciiWhitespace(s[0]) then 0 else 1 + WordEnd(s[1..])
  }

  /** Split on ASCII whitespace; stripping it first makes no difference. */
  function Words(s: string): seq<string>
    decreases |s|
  {
    if s == "" then []
    else if IsAsciiWhitespace(s[0]) then Words(s[1..])
    else var n := WordEnd(s); [s[..n]] + Words(s[n..])
  }

  function AsciiLower(s: string): (r: string)
    ensures |r| == |s|
  {
    if s == "" then "" else [Lower(s[0])] + AsciiLower(s[1..])
  }

  predicate IsAscii(s: string) {
    forall i :: 0 <= i < |s| ==> s[i] as int < 0x80
  }

  predicate Has(directives: seq<Directive>, name: string) {
    exists i :: 0 <= i < |directives| && directives[i].name == name
  }

  /** One token of the serialized policy; a repeated directive is ignored. */
  function Collect(tokens: seq<string>, found: seq<Directive>): seq<Directive>
    decreases tokens
  {
    if tokens == [] then found
    else
      var words := Words(tokens[0]);
      if words == [] || !IsAscii(tokens[0]) || Has(found, AsciiLower(words[0])) then Collect(tokens[1..], found)
      else Collect(tokens[1..], found + [Directive(AsciiLower(words[0]), words[1..])])
  }

  function Parse(policy: string): seq<Directive> {
    Collect(Split(policy, ';'), [])
  }

  // ---- printing ------------------------------------------------------------------

  function DirectiveText(d: Directive): string {
    Join([d.name] + d.values, " ")
  }

  function Print(directives: seq<Directive>): string {
    if |directives| == 0 then ""
    else if |directives| == 1 then DirectiveText(directives[0])
    else DirectiveText(directives[0]) + "; " + Print(directives[1..])
  }

  predicate Visible(c: char) {
    0x21 <= c as int <= 0x7E
  }

  /** A word that stays one word in a policy. */
  predicate IsToken(s: string) {
    s != "" && forall i :: 0 <= i < |s| ==> Visible(s[i]) && s[i] != ';'
  }

  predicate IsDirective(d: Directive) {
    && IsToken(d.name) && AsciiLower(d.name) == d.name
    && forall i :: 0 <= i < |d.values| ==> IsToken(d.values[i])
  }

  predicate AllTokens(words: seq<string>) {
    forall i :: 0 <= i < |words| ==> IsToken(words[i])
  }

  ghost predicate Printable(directives: seq<Directive>, found: seq<Directive>) {
    && (forall i :: 0 <= i < |directives| ==> IsDirective(directives[i]) && !Has(found, directives[i].name))
    && (forall i, j :: 0 <= i < j < |directives| ==> directives[i].name != directives[j].name)
  }

  lemma {:induction false} WordEndOfWord(w: string, rest: string)
    requires IsToken(w) || w == ""
    requires rest == "" || IsAsciiWhitespace(rest[0])
    ensures WordEnd(w + rest) == |w|
  {
    if w != "" {
      assert Visible(w[0]);
      assert (w + rest)[1..] == w[1..] + rest;
      WordEndOfWord(w[1..], rest);
    } else {
      assert w + rest == rest;
    }
  }

  lemma {:induction false} WordsOfJoin(words: seq<string>)
    requires AllTokens(words)
    ensures Words(Join(words, " ")) == words
  {
    if |words| > 0 {
      var w := words[0];
      assert IsToken(w) && Visible(w[0]);
      if |words| == 1 {
        WordEndOfWord(w, "");
        assert w + "" == w && w[..|w|] == w;
        assert Words(w[|w|..]) == [];
      } else {
        var rest := " " + Join(words[1..], " ");
        var s := Join(words, " ");
        assert s == w + rest;
        WordEndOfWord(w, rest);
        assert s[..|w|] == w && s[|w|..] == rest;
        assert rest[1..] == Join(words[1..], " ");
        WordsOfJoin(words[1..]);
      }
    }
  }

  /** Every character of a joined line is a word's or the separator. */
  lemma {:induction false} JoinedText(words: seq<string>)
    requires AllTokens(words)
    ensures forall i :: 0 <= i < |Join(words, " ")| ==>
              (Visible(Join(words, " ")[i]) || Join(words, " ")[i] == ' ') && Join(words, " ")[i] != ';'
  {
    if |words| == 1 {
      assert IsToken(words[0]);
    } else if |words| > 1 {
      assert IsToken(words[0]);
      JoinedText(words[1..]);
    }
  }

  lemma DirectiveReadsBack(d: Directive, lead: string)
    requires IsDirective(d) && (lead == "" || lead == " ")
    ensures Words(lead + DirectiveText(d)) == [d.name] + d.values
    ensures IsAscii(lead + DirectiveText(d)) && ';' !in lead + DirectiveText(d)
  {
    var words := [d.name] + d.values;
    WordsOfJoin(words);
    JoinedText(words);
    var text := lead + DirectiveText(d);
    if lead == " " { assert text[1..] == DirectiveText(d); } else { assert text == DirectiveText(d); }
  }

  lemma HasMore(found: seq<Directive>, d: Directive, name: string)
    requires Has(found + [d], name)
    ensures Has(found, name) || name == d.name
  {
  }

  lemma {:induction false} CollectPrinted(directives: seq<Directive>, found: seq<Directive>, lead: string)
    requires directives != [] && Printable(directives, found) && (lead == "" || lead == " ")
    ensures Collect(Split(lead + Print(directives), ';'), found) == found + directives
    decreases directives
  {
    hide Words, IsAscii, IsDirective, Join, AsciiLower, Split;
    var d := directives[0];
    var text := lead + DirectiveText(d);
    DirectiveReadsBack(d, lead);
    DirectiveName(d);
    var found' := found + [d];
    assert Directive(d.name, ([d.name] + d.values)[1..]) == d;
    if |directives| == 1 {
      SplitNone(text, ';');
      CollectOne(text, found, d);
      assert directives == [d];
    } else {
      var rest := directives[1..];
      assert lead + Print(directives) == text + [';'] + (" " + Print(rest));
      SplitFirst(text, ';', " " + Print(rest));
      forall i | 0 <= i < |rest| ensures IsDirective(rest[i]) && !Has(found', rest[i].name) {
        assert rest[i] == directives[i + 1];
        if Has(found', rest[i].name) { HasMore(found, d, rest[i].name); }
      }
      CollectPrinted(rest, found', " ");
      assert found + directives == found' + rest;
    }
  }

  lemma DirectiveName(d: Directive)
    requires IsDirective(d)
    ensures AsciiLower(d.name) == d.name
  {
  }

  lemma CollectOne(text: string, found: seq<Directive>, d: Directive)
    requires Words(text) == [d.name] + d.values && IsAscii(text) && AsciiLower(d.name) == d.name && !Has(found, d.name)
    ensures Collect([text], found) == found + [d]
  {
    assert [text][1..] == [];
    assert ([d.name] + d.values)[1..] == d.values;
  }

  /** The parser reads back exactly the directives that were printed. */
  lemma ParsePrint(directives: seq<Directive>)
    requires directives != [] && Printable(directives, [])
    ensures Parse(Print(directives)) == directives
  {
    CollectPrinted(directives, [], "");
    assert "" + Print(directives) == Print(directives);
  }

  // ---- the policy and its widening ------------------------------------------------

  const BEFORE := "default-src 'self'; " + "script-src 'self' 'unsafe-inline'; " + "style-src 'self' 'unsafe-inline'; "
                  + "img-src 'self' data: blob:; "
  const AFTER := "; " + "base-uri 'self'; " + "form-action 'self'; " + "frame-ancestors 'none'"
  const CONNECT_SRC_DIRECTIVE := "connect-src 'self'"
  const CONTENT_SECURITY_POLICY := BEFORE + CONNECT_SRC_DIRECTIVE + AFTER

  /** Rust's `replacen(pattern, by, 1)`. */
  function ReplaceFirst(s: string, pattern: string, put: string): string {
    if pattern <= s then put + s[|pattern|..]
    else if s == "" then s
    else [s[0]] + ReplaceFirst(s[1..], pattern, put)
  }

  /** `content_security_policy`: the extra sources go in by text replacement. */
  function ContentSecurityPolicy(extra: seq<string>): string {
    if extra == [] then CONTENT_SECURITY_POLICY
    else ReplaceFirst(CONTENT_SECURITY_POLICY, CONNECT_SRC_DIRECTIVE, CONNECT_SRC_DIRECTIVE + " " + Join(extra, " "))
  }

  /** The strict policy's directives, with `extra` allowed after `'self'` in `connect-src`. */
  function Directives(extra: seq<string>): seq<Directive> {
    [ Directive("default-src", ["'self'"]),
      Directive("script-src", ["'self'", "'unsafe-inline'"]),
      Directive("style-src", ["'self'", "'unsafe-inline'"]),
      Directive("img-src", ["'self'", "data:", "blob:"]),
      Directive("connect-src", ["'self'"] + extra),
      Directive("base-uri", ["'self'"]),
      Directive("form-action", ["'self'"]),
      Directive("frame-ancestors", ["'none'"]) ]
  }

  /** No `co` inside, and no `c` at the end. */
  predicate NoCo(s: string) {
    && (forall i :: 0 <= i < |s| - 1 && s[i] == 'c' ==> s[i + 1] != 'o')
    && (s != "" ==> s[|s| - 1] != 'c')
  }

  lemma NoCoConcat(a: string, b: string)
    requires NoCo(a) && NoCo(b)
    ensures NoCo(a + b)
  {
  }

  lemma BeforeHasNoCo()
    ensures NoCo(BEFORE)
  {
    var a, b, c, d := "default-src 'self'; ", "script-src 'self' 'unsafe-inline'; ", "style-src 'self' 'unsafe-inline'; ",
                      "img-src 'self' data: blob:; ";
    NoCoConcat(a, b);
    NoCoConcat(a + b, c);
    NoCoConcat(a + b + c, d);
  }

  lemma NotAtTheFront(a: string, pattern: string, b: string)
    requires NoCo(a) && a != "" && |pattern| >= 2 && pattern[0] == 'c' && pattern[1] == 'o'
    ensures !(pattern <= a + pattern + b)
  {
    var s := a + pattern + b;
    assert s[0] == a[0];
    assert s[1] == if |a| > 1 then a[1] else pattern[0];
  }

  lemma SkipOne(a: string, rest: string, pattern: string, put: string)
    requires a != "" && !(pattern <= a + rest)
    ensures ReplaceFirst(a + rest, pattern, put) == [a[0]] + ReplaceFirst(a[1..] + rest, pattern, put)
  {
    assert (a + rest)[1..] == a[1..] + rest;
  }

  /** The text replacement finds the directive itself: nothing before it looks like its beginning. */
  lemma {:induction false} ReplaceFirstFinds(a: string, pattern: string, b: string, put: string)
    requires NoCo(a) && |pattern| >= 2 && pattern[0] == 'c' && pattern[1] == 'o'
    ensures ReplaceFirst(a + (pattern + b), pattern, put) == a + (put + b)
  {
    if a == "" {
      assert "" + (pattern + b) == pattern + b && (pattern + b)[|pattern|..] == b;
    } else {
      NotAtTheFront(a, pattern, b);
      assert a + pattern + b == a + (pattern + b);
      SkipOne(a, pattern + b, pattern, put);
      NoCoTail(a);
      hide ReplaceFirst, NoCo;
      ReplaceFirstFinds(a[1..], pattern, b, put);
      assert a == [a[0]] + a[1..];
    }
  }

  lemma NoCoTail(a: string)
    requires NoCo(a) && a != ""
    ensures NoCo(a[1..])
  {
  }

  lemma JoinMore(words: seq<string>, more: seq<string>)
    requires words != [] && more != []
    ensures Join(words + more, " ") == Join(words, " ") + " " + Join(more, " ")
  {
    if |words| == 1 {
      assert (words + more)[1..] == more;
    } else {
      assert (words + more)[1..] == words[1..] + more;
      JoinMore(words[1..], more);
    }
  }

  /** The directives before and after `connect-src`. */
  lemma PrintedBefore(d: Directive, rest: seq<Directive>)
    requires rest != []
    ensures Print([d] + rest) == DirectiveText(d) + "; " + Print(rest)
  {
    assert ([d] + rest)[1..] == rest;
  }

  lemma JoinCons(w: string, more: seq<string>)
    requires more != []
    ensures Join([w] + more, " ") == w + " " + Join(more, " ")
  {
    assert ([w] + more)[1..] == more;
  }

  lemma OneValue(name: string, v: string)
    ensures DirectiveText(Directive(name, [v])) == name + " " + v
  {
    JoinCons(name, [v]);
  }

  lemma TwoValues(name: string, v: string, w: string)
    ensures DirectiveText(Directive(name, [v, w])) == name + " " + v + " " + w
  {
    assert [v] + [w] == [v, w];
    JoinCons(name, [v, w]);
    JoinCons(v, [w]);
    assert name + " " + (v + " " + w) == name + " " + v + " " + w;
  }

  lemma ThreeValues(name: string, v: string, w: string, x: string)
    ensures DirectiveText(Directive(name, [v, w, x])) == name + " " + v + " " + w + " " + x
  {
    assert [v] + [w, x] == [v, w, x] && [w] + [x] == [w, x];
    JoinCons(name, [v, w, x]);
    JoinCons(v, [w, x]);
    JoinCons(w, [x]);
    assert name + " " + (v + " " + (w + " " + x)) == name + " " + v + " " + w + " " + x;
  }

  lemma TextsFirst()
    ensures DirectiveText(Directive("default-src", ["'self'"])) == "default-src 'self'"
  {
    hide DirectiveText;
    OneValue("default-src", "'self'");
  }

  lemma ScriptText()
    ensures DirectiveText(Directive("script-src", ["'self'", "'unsafe-inline'"])) == "script-src 'self' 'unsafe-inline'"
  {
    hide DirectiveText;
    TwoValues("script-src", "'self'", "'unsafe-inline'");
  }

  lemma TextsSecond()
    ensures DirectiveText(Directive("style-src", ["'self'", "'unsafe-inline'"])) == "style-src 'self' 'unsafe-inline'"
    ensures DirectiveText(Directive("img-src", ["'self'", "data:", "blob:"])) == "img-src 'self' data: blob:"
  {
    hide DirectiveText;
    TwoValues("style-src", "'self'", "'unsafe-inline'");
    ThreeValues("img-src", "'self'", "data:", "blob:");
  }

  lemma TextsAfter()
    ensures DirectiveText(Directive("base-uri", ["'self'"])) == "base-uri 'self'"
    ensures DirectiveText(Directive("form-action", ["'self'"])) == "form-action 'self'"
    ensures DirectiveText(Directive("frame-ancestors", ["'none'"])) == "frame-ancestors 'none'"
  {
    hide DirectiveText;
    OneValue("base-uri", "'self'");
    OneValue("form-action", "'self'");
    OneValue("frame-ancestors", "'none'");
  }

  lemma MoreValues(name: string, v: string, extra: seq<string>)
    ensures DirectiveText(Directive(name, [v] + extra))
            == name + " " + v + (if extra == [] then "" else " " + Join(extra, " "))
  {
    OneValue(name, v);
    assert [name] + ([v] + extra) == [name, v] + extra;
    assert [name] + [v] == [name, v];
    if extra != [] { JoinMore([name, v], extra); } else { assert [name, v] + extra == [name, v]; }
  }

  lemma ConnectSrcText(extra: seq<string>)
    ensures DirectiveText(Directive("connect-src", ["'self'"] + extra))
            == CONNECT_SRC_DIRECTIVE + (if extra == [] then "" else " " + Join(extra, " "))
  {
    hide DirectiveText, Join;
    MoreValues("connect-src", "'self'", extra);
    assert "connect-src" + " " + "'self'" == CONNECT_SRC_DIRECTIVE;
  }

  lemma PrintedAfter()
    ensures "; " + Print(Directives([])[5..]) == AFTER
  {
    hide DirectiveText;
    TextsAfter();
    var a, b := Directive("base-uri", ["'self'"]), Directive("form-action", ["'self'"]);
    var c := Directive("frame-ancestors", ["'none'"]);
    assert Directives([])[5..] == [a] + ([b] + [c]);
    PrintedBefore(a, [b] + [c]);
    PrintedBefore(b, [c]);
  }

  lemma PrintedConcat(a: seq<Directive>, b: seq<Directive>)
    requires a != [] && b != []
    ensures Print(a + b) == Print(a) + "; " + Print(b)
  {
    if |a| == 1 {
      PrintedBefore(a[0], b);
      assert a + b == [a[0]] + b;
    } else {
      assert (a + b)[1..] == a[1..] + b;
      PrintedConcat(a[1..], b);
    }
  }

  lemma PrintedUpToConnect()
    ensures Print(Directives([])[..4]) + "; " == BEFORE
  {
    hide DirectiveText;
    TextsFirst();
    ScriptText();
    TextsSecond();
    var a, b := Directive("default-src", ["'self'"]), Directive("script-src", ["'self'", "'unsafe-inline'"]);
    var c, d := Directive("style-src", ["'self'", "'unsafe-inline'"]), Directive("img-src", ["'self'", "data:", "blob:"]);
    assert Directives([])[..4] == [a] + ([b] + ([c] + [d]));
    PrintedBefore(a, [b] + ([c] + [d]));
    PrintedBefore(b, [c] + [d]);
    PrintedBefore(c, [d]);
  }

  /** `connect-src` with the sources, as text. */
  function ConnectText(extra: seq<string>): string {
    CONNECT_SRC_DIRECTIVE + (if extra == [] then "" else " " + Join(extra, " "))
  }

  lemma DirectivesPrint(extra: seq<string>)
    ensures Print(Directives(extra)) == BEFORE + (ConnectText(extra) + AFTER)
  {
    hide Print, DirectiveText;
    var before, after := Directives([])[..4], Directives([])[5..];
    var connect := Directive("connect-src", ["'self'"] + extra);
    assert Directives(extra) == before + ([connect] + after);
    PrintedConcat(before, [connect] + after);
    PrintedConcat([connect], after);
    PrintOne(connect);
    PrintedUpToConnect();
    PrintedAfter();
    ConnectSrcText(extra);
    hide *;
    var put := ConnectText(extra);
    assert put + "; " + Print(after) == put + ("; " + Print(after));
  }

  lemma FoundIn(before: string, directive: string, after: string, put: string)
    requires NoCo(before) && |directive| >= 2 && directive[0] == 'c' && directive[1] == 'o'
    ensures ReplaceFirst(before + directive + after, directive, put) == before + (put + after)
  {
    ReplaceFirstFinds(before, directive, after, put);
    assert before + (directive + after) == before + directive + after;
  }

  lemma ConnectBegins()
    ensures |CONNECT_SRC_DIRECTIVE| >= 2 && CONNECT_SRC_DIRECTIVE[0] == 'c' && CONNECT_SRC_DIRECTIVE[1] == 'o'
  {
  }

  /** Replacing the directive's text replaces it where it stands. */
  lemma DirectiveIsFound(put: string)
    ensures ReplaceFirst(CONTENT_SECURITY_POLICY, CONNECT_SRC_DIRECTIVE, put) == BEFORE + (put + AFTER)
  {
    assert CONTENT_SECURITY_POLICY == BEFORE + CONNECT_SRC_DIRECTIVE + AFTER;
    hide *;
    BeforeHasNoCo();
    ConnectBegins();
    FoundIn(BEFORE, CONNECT_SRC_DIRECTIVE, AFTER, put);
  }

  lemma ReplacementGives(extra: seq<string>)
    ensures ContentSecurityPolicy(extra) == BEFORE + (ConnectText(extra) + AFTER)
  {
    hide ReplaceFirst, Join;
    if extra == [] {
      assert ConnectText(extra) == CONNECT_SRC_DIRECTIVE;
      assert BEFORE + (CONNECT_SRC_DIRECTIVE + AFTER) == CONTENT_SECURITY_POLICY;
    } else {
      DirectiveIsFound(ConnectText(extra));
      assert ConnectText(extra) == CONNECT_SRC_DIRECTIVE + " " + Join(extra, " ");
    }
  }

  /** The widened text is exactly the print of the strict directives with the sources in `connect-src`. */
  lemma PolicyIsPrinted(extra: seq<string>)
    ensures ContentSecurityPolicy(extra) == Print(Directives(extra))
  {
    hide *;
    ReplacementGives(extra);
    DirectivesPrint(extra);
  }

  lemma PrintOne(d: Directive)
    ensures Print([d]) == DirectiveText(d)
  {
  }

  // ---- the sources ---------------------------------------------------------------------

  datatype Reason = Empty | DirectiveSeparator | PolicySeparator | Whitespace | ControlCharacter | NonAscii

  /** Why one character is refused; the checks come in this order. */
  function Refuses(c: char): Option<Reason> {
    if c == ';' then Some(DirectiveSeparator)
    else if c == ',' then Some(PolicySeparator)
    else if IsWhitespace(c) then Some(Whitespace)
    else if IsControl(c) then Some(ControlCharacter)
    else if !Visible(c) then Some(NonAscii)
    else None
  }

  /** The reason of the first refused character. */
  function Verdict(source: string): Option<Reason> {
    if source == "" then Some(Empty) else FirstRefusal(source)
  }

  function FirstRefusal(source: string): Option<Reason> {
    if source == "" then None
    else if Refuses(source[0]).Some? then Refuses(source[0])
    else FirstRefusal(source[1..])
  }

  predicate IsSource(s: string) {
    IsToken(s) && ',' !in s
  }

  /** Exactly the non-empty runs of visible ASCII without `;` and `,` are accepted. */
  lemma VerdictAccepts(source: string)
    ensures Verdict(source).None? <==> IsSource(source)
    ensures Verdict(source).None? <==>
              source != "" && forall i :: 0 <= i < |source| ==> 33 <= source[i] as int <= 126 && source[i] != ';' && source[i] != ','
  {
    if source != "" { FirstRefusalFinds(source); }
  }

  /** The first refused character decides what is reported; Unicode's separators and the C1 controls are named before the rest beyond ASCII. */
  lemma ReasonOfTheFirst(s: string, k: nat)
    requires k < |s|
    requires forall i :: 0 <= i < k ==> 33 <= s[i] as int <= 126 && s[i] != ';' && s[i] != ','
    requires !(33 <= s[k] as int <= 126) || s[k] == ';' || s[k] == ','
    ensures s[k] == ';' ==> Verdict(s) == Some(DirectiveSeparator)
    ensures s[k] == ',' ==> Verdict(s) == Some(PolicySeparator)
    ensures s[k] as int == 32 || 9 <= s[k] as int <= 13 || s[k] as int in {0x85, 0xA0, 0x1680, 0x2028, 0x2029, 0x202F, 0x205F, 0x3000} || 0x2000 <= s[k] as int <= 0x200A
            <==> Verdict(s) == Some(Whitespace)
    ensures s[k] as int <= 8 || 14 <= s[k] as int <= 31 || (127 <= s[k] as int <= 0x9F && s[k] as int != 0x85) ==> Verdict(s) == Some(ControlCharacter)
    ensures s[k] as int > 0x9F && Verdict(s) != Some(Whitespace) ==> Verdict(s) == Some(NonAscii)
  {
    FirstRefusalSkips(s, k);
  }

  lemma {:induction false} FirstRefusalSkips(s: string, k: nat)
    requires k <= |s|
    requires forall i :: 0 <= i < k ==> Visible(s[i]) && s[i] != ';' && s[i] != ','
    ensures FirstRefusal(s) == FirstRefusal(s[k..])
  {
    if k == 0 {
      assert s[0..] == s;
    } else {
      forall i | 0 <= i < k - 1 ensures s[1..][i] == s[i + 1] {}
      FirstRefusalSkips(s[1..], k - 1);
      assert s[1..][k - 1..] == s[k..];
    }
  }

  lemma {:induction false} FirstRefusalFinds(s: string)
    ensures FirstRefusal(s).None? <==> forall i :: 0 <= i < |s| ==> Visible(s[i]) && s[i] != ';' && s[i] != ','
  {
    if s != "" {
      FirstRefusalFinds(s[1..]);
      if Refuses(s[0]).None? {
        forall i | 0 < i < |s| ensures s[1..][i - 1] == s[i] {}
      } else {
        assert !(Visible(s[0]) && s[0] != ';' && s[0] != ',');
      }
    }
  }

  /** Sources in first-occurrence order, without `'self'` and without repetitions. */
  function Added(extra: seq<string>, sources: seq<string>): seq<string>
    decreases sources
  {
    if sources == [] then extra
    else Added(if sources[0] != "'self'" && sources[0] !in extra then extra + [sources[0]] else extra, sources[1..])
  }

  /** Several calls are one call with all their sources. */
  lemma {:induction false} BatchesConcatenate(extra: seq<string>, a: seq<string>, b: seq<string>)
    ensures Added(Added(extra, a), b) == Added(extra, a + b)
    decreases a
  {
    if a == [] {
      assert a + b == b;
    } else {
      assert (a + b)[1..] == a[1..] + b;
      BatchesConcatenate(if a[0] != "'self'" && a[0] !in extra then extra + [a[0]] else extra, a[1..], b);
    }
  }

  function FirstIndex(s: seq<string>, x: string): (i: nat)
    ensures i <= |s| && (i < |s| ==> s[i] == x) && (i == |s| <==> x !in s)
    ensures forall j :: 0 <= j < i ==> s[j] != x
  {
    if s == [] || s[0] == x then 0 else 1 + FirstIndex(s[1..], x)
  }

  ghost predicate NoRepetition(s: seq<string>) {
    forall i, j :: 0 <= i < j < |s| ==> s[i] != s[j]
  }

  /** Nothing is repeated, nothing else is there, and the order is that of first occurrences. */
  ghost predicate InFirstOccurrenceOrder(r: seq<string>, s: seq<string>) {
    && NoRepetition(r)
    && (forall x :: x in r <==> x in s && x != "'self'")
    && (forall i, j :: 0 <= i < j < |r| ==> FirstIndex(s, r[i]) < FirstIndex(s, r[j]))
  }

  lemma AddOne(r: seq<string>, s: seq<string>, x: string)
    requires InFirstOccurrenceOrder(r, s)
    ensures InFirstOccurrenceOrder(if x != "'self'" && x !in r then r + [x] else r, s + [x])
  {
    var r' := if x != "'self'" && x !in r then r + [x] else r;
    forall y | y in s ensures FirstIndex(s + [x], y) == FirstIndex(s, y) {
      assert (s + [x])[FirstIndex(s, y)] == y;
    }
    if r' != r {
      assert x !in s;
      forall i, j | 0 <= i < j < |r'| ensures FirstIndex(s + [x], r'[i]) < FirstIndex(s + [x], r'[j]) {
        assert r'[i] in r && r'[i] in s;
        if j < |r| { assert r'[j] in r; }
      }
    } else {
      forall i, j | 0 <= i < j < |r'| ensures FirstIndex(s + [x], r'[i]) < FirstIndex(s + [x], r'[j]) {
        assert r[i] in r && r[j] in r;
      }
    }
  }

  lemma {:induction false} AddedOrder(r: seq<string>, s: seq<string>, sources: seq<string>)
    requires InFirstOccurrenceOrder(r, s)
    ensures InFirstOccurrenceOrder(Added(r, sources), s + sources)
    decreases sources
  {
    hide InFirstOccurrenceOrder;
    if sources == [] {
      assert s + sources == s;
    } else {
      var x := sources[0];
      AddOne(r, s, x);
      AddedOrder(if x != "'self'" && x !in r then r + [x] else r, s + [x], sources[1..]);
      assert s + [x] + sources[1..] == s + sources;
    }
  }

  // ---- configuring and selecting -----------------------------------------------------------

  datatype InvalidCspSource = InvalidCspSource(source: string, reason: Reason)

  /** The policy of a response: widened only if there are sources and the selector, if any, accepts. */
  function CspFor(extra: seq<string>, selected: Option<bool>): string {
    if extra != [] && selected != Some(false) then ContentSecurityPolicy(extra) else CONTENT_SECURITY_POLICY
  }

  class SecurityHeaders {
    var extraConnectSrc: seq<string>

    constructor ()
      ensures extraConnectSrc == []
    {
      extraConnectSrc := [];
    }

    /** `validate_source`, as the scan it is. */
    static method ValidateSource(source: string) returns (r: Option<Reason>)
      ensures r == Verdict(source)
    {
      if source == "" { return Some(Reason.Empty); }
      var i := 0;
      while i < |source|
        invariant 0 <= i <= |source|
        invariant FirstRefusal(source) == FirstRefusal(source[i..])
      {
        if Refuses(source[i]).Some? { return Refuses(source[i]); }
        assert source[i..][1..] == source[i + 1..];
        i := i + 1;
      }
      r := None;
    }

    /** `extra_connect_src`: all of the sources, or - at the first invalid one - none of them. */
    method ExtraConnectSrc(sources: seq<string>) returns (r: Option<InvalidCspSource>)
      modifies this
      ensures r.None? <==> forall i :: 0 <= i < |sources| ==> IsSource(sources[i])
      ensures r.None? ==> extraConnectSrc == Added(old(extraConnectSrc), sources)
      ensures r.Some? ==> extraConnectSrc == old(extraConnectSrc)
      ensures r.Some? ==> exists i :: 0 <= i < |sources| && r.value.source == sources[i]
                                      && Some(r.value.reason) == Verdict(sources[i])
                                      && forall j :: 0 <= j < i ==> IsSource(sources[j])
    {
      var added: seq<string> := [];
      for i := 0 to |sources|
        invariant added == sources[..i] && extraConnectSrc == old(extraConnectSrc)
        invariant forall j :: 0 <= j < i ==> IsSource(sources[j])
      {
        var verdict := ValidateSource(sources[i]);
        VerdictAccepts(sources[i]);
        if verdict.Some? { return Some(InvalidCspSource(sources[i], verdict.value)); }
        added := added + [sources[i]];
      }
      assert added == sources;
      for i := 0 to |added|
        invariant Added(extraConnectSrc, added[i..]) == Added(old(extraConnectSrc), added)
      {
        assert added[i..][1..] == added[i + 1..];
        if added[i] != "'self'" && added[i] !in extraConnectSrc {
          extraConnectSrc := extraConnectSrc + [added[i]];
        }
      }
      return None;
    }
  }

  // ---- the whole -------------------------------------------------------------------------

  lemma {:induction false} LowerStays(s: string)
    requires forall i :: 0 <= i < |s| ==> Lower(s[i]) == s[i]
    ensures AsciiLower(s) == s
  {
    if s != "" { LowerStays(s[1..]); }
  }

  predicate IsPlain(s: string) {
    s != "" && forall i :: 0 <= i < |s| ==> 'a' <= s[i] <= 'z' || s[i] == '-'
  }

  lemma PlainNames()
    ensures IsPlain("default-src") && IsPlain("script-src") && IsPlain("style-src") && IsPlain("img-src")
    ensures IsPlain("connect-src") && IsPlain("base-uri") && IsPlain("form-action") && IsPlain("frame-ancestors")
  {
  }

  lemma PlainIsToken(s: string)
    requires IsPlain(s)
    ensures IsToken(s) && AsciiLower(s) == s
  {
    LowerStays(s);
  }

  lemma NamesAreTokens(k: nat)
    requires k < 8
    ensures IsToken(Directives([])[k].name) && AsciiLower(Directives([])[k].name) == Directives([])[k].name
  {
    PlainNames();
    hide IsPlain, IsToken, AsciiLower;
    PlainIsToken(Directives([])[k].name);
  }

  lemma ValuesAreTokens(k: nat, extra: seq<string>)
    requires k < 8 && AllTokens(extra)
    ensures AllTokens(Directives(extra)[k].values)
  {
  }

  lemma NamesDiffer(i: nat, j: nat, extra: seq<string>)
    requires i < j < 8
    ensures Directives(extra)[i].name != Directives(extra)[j].name
  {
    assert |"default-src"| == |"connect-src"| == |"form-action"| == 11 && |"script-src"| == 10 && |"style-src"| == 9;
    assert |"img-src"| == 7 && |"base-uri"| == 8 && |"frame-ancestors"| == 15;
    assert "default-src"[0] == 'd' && "connect-src"[0] == 'c' && "form-action"[0] == 'f';
  }

  lemma SameNames(k: nat, extra: seq<string>)
    requires k < 8
    ensures Directives(extra)[k].name == Directives([])[k].name
  {
  }

  lemma DirectivesArePrintable(extra: seq<string>)
    requires AllTokens(extra)
    ensures Printable(Directives(extra), [])
  {
    var ds := Directives(extra);
    forall k | 0 <= k < 8 ensures IsDirective(ds[k]) && !Has([], ds[k].name) {
      NamesAreTokens(k);
      SameNames(k, extra);
      ValuesAreTokens(k, extra);
      hide Directives, IsToken, AsciiLower;
    }
    forall i, j | 0 <= i < j < 8 ensures ds[i].name != ds[j].name {
      NamesDiffer(i, j, extra);
    }
    assert |ds| == 8;
    hide *;
  }

  function Flatten(calls: seq<seq<string>>): seq<string> {
    if calls == [] then [] else calls[0] + Flatten(calls[1..])
  }

  function Configured(extra: seq<string>, calls: seq<seq<string>>): seq<string>
    decreases calls
  {
    if calls == [] then extra else Configured(Added(extra, calls[0]), calls[1..])
  }

  lemma {:induction false} ConfiguredIsFlat(extra: seq<string>, calls: seq<seq<string>>)
    ensures Configured(extra, calls) == Added(extra, Flatten(calls))
    decreases calls
  {
    if calls != [] {
      ConfiguredIsFlat(Added(extra, calls[0]), calls[1..]);
      BatchesConcatenate(extra, calls[0], Flatten(calls[1..]));
    }
  }

  lemma {:induction false} FlattenMembers(calls: seq<seq<string>>, x: string)
    ensures x in Flatten(calls) <==> exists i :: 0 <= i < |calls| && x in calls[i]
  {
    if calls != [] {
      FlattenMembers(calls[1..], x);
      if i :| 0 <= i < |calls| && x in calls[i] && i > 0 { assert calls[1..][i - 1] == calls[i]; }
    }
  }

  lemma ConfiguredSources(calls: seq<seq<string>>)
    requires forall i, x :: 0 <= i < |calls| && x in calls[i] ==> IsSource(x)
    ensures var extra := Configured([], calls);
            && InFirstOccurrenceOrder(extra, Flatten(calls))
            && extra == Configured([], [Flatten(calls)])
            && AllTokens(extra)
  {
    var all := Flatten(calls);
    var extra := Configured([], calls);
    ConfiguredIsFlat([], calls);
    ConfiguredIsFlat([], [all]);
    assert Flatten([all]) == all by { assert [all][1..] == [] && all + [] == all; }
    AddedOrder([], [], all);
    assert [] + all == all;
    hide Flatten, Configured, Added, FirstIndex;
    SourcesAreTokens(calls, extra);
  }

  lemma SourcesAreTokens(calls: seq<seq<string>>, extra: seq<string>)
    requires forall i, x :: 0 <= i < |calls| && x in calls[i] ==> IsSource(x)
    requires InFirstOccurrenceOrder(extra, Flatten(calls))
    ensures AllTokens(extra)
  {
    forall k | 0 <= k < |extra| ensures IsToken(extra[k]) {
      assert extra[k] in extra;
      FlattenMembers(calls, extra[k]);
      var i :| 0 <= i < |calls| && extra[k] in calls[i];
      assert IsSource(extra[k]);
    }
    hide *;
  }

  /** A parser sees the strict policy's directives, with the sources added to `connect-src`. */
  lemma ParsedPolicy(extra: seq<string>)
    requires AllTokens(extra)
    ensures Parse(ContentSecurityPolicy(extra)) == Directives(extra)
  {
    hide *;
    DirectivesArePrintable(extra);
    PolicyIsPrinted(extra);
    DirectivesAreThere(extra);
    ParsePrint(Directives(extra));
  }

  /**
    Whatever the accepted calls: a parser sees the strict policy with only
    `connect-src` different - `'self'`, then every accepted source once, in
    first-occurrence order - and one call with all the sources gives the same text.
   */
  lemma WideningChangesOnlyConnectSrc(calls: seq<seq<string>>)
    requires forall i, x :: 0 <= i < |calls| && x in calls[i] ==> IsSource(x)
    ensures var extra := Configured([], calls);
            && |Parse(CONTENT_SECURITY_POLICY)| == 8
            && Parse(ContentSecurityPolicy(extra))
               == Parse(CONTENT_SECURITY_POLICY)[4 := Directive("connect-src", ["'self'"] + extra)]
            && InFirstOccurrenceOrder(extra, Flatten(calls))
            && extra == Configured([], [Flatten(calls)])
  {
    ConfiguredSources(calls);
    hide Configured, Flatten, Parse, InFirstOccurrenceOrder, IsToken, IsSource, ReplaceFirst, Join;
    ParsedPolicy(Configured([], calls));
    ParsedPolicy([]);
    OnlyConnectSrcDiffers(Configured([], calls));
  }

  lemma OnlyConnectSrcDiffers(extra: seq<string>)
    ensures |Directives([])| == 8 && Directives(extra) == Directives([])[4 := Directive("connect-src", ["'self'"] + extra)]
  {
  }

  lemma DirectivesAreThere(extra: seq<string>)
    ensures Directives(extra) != []
  {
  }

  /** Every response's policy reads as the strict directives or those with the configured sources added, no other. */
  lemma EveryResponse(extra: seq<string>, selected: Option<bool>)
    requires AllTokens(extra)
    ensures Parse(CspFor(extra, selected)) == Directives(if selected == Some(false) then [] else extra)
  {
    hide Directives, Parse, ReplaceFirst, IsToken;
    ParsedPolicy(extra);
    ParsedPolicy([]);
  }

  /** The text is always a legal header value: visible ASCII and spaces. */
  lemma PolicyIsAHeaderValue(extra: seq<string>)
    requires AllTokens(extra)
    ensures forall i :: 0 <= i < |ContentSecurityPolicy(extra)| ==>
              Visible(ContentSecurityPolicy(extra)[i]) || ContentSecurityPolicy(extra)[i] == ' '
  {
    hide Directives, ContentSecurityPolicy, Print;
    PolicyIsPrinted(extra);
    DirectivesArePrintable(extra);
    DirectivesAreThere(extra);
    PrintIsVisible(Directives(extra));
  }

  lemma {:induction false} PrintIsVisible(ds: seq<Directive>)
    requires forall i :: 0 <= i < |ds| ==> IsDirective(ds[i])
    ensures forall i :: 0 <= i < |Print(ds)| ==> Visible(Print(ds)[i]) || Print(ds)[i] == ' '
  {
    if |ds| > 0 {
      assert AllTokens([ds[0].name] + ds[0].values);
      JoinedText([ds[0].name] + ds[0].values);
      hide IsDirective;
      PrintIsVisible(ds[1..]);
      assert forall i :: 0 <= i < |DirectiveText(ds[0])| ==> Visible(DirectiveText(ds[0])[i]) || DirectiveText(ds[0])[i] == ' ';
      hide DirectiveText;
    }
  }

  /** What a parser sees of the strict policy, word for word. */
  lemma StrictDirectives()
    ensures Parse(CspFor([], None)) ==
      [ Directive("default-src", ["'self'"]),
        Directive("script-src", ["'self'", "'unsafe-inline'"]),
        Directive("style-src", ["'self'", "'unsafe-inline'"]),
        Directive("img-src", ["'self'", "data:", "blob:"]),
        Directive("connect-src", ["'self'"]),
        Directive("base-uri", ["'self'"]),
        Directive("form-action", ["'self'"]),
        Directive("frame-ancestors", ["'none'"]) ]
  {
    EveryResponse([], None);
    NothingAdded();
    hide Parse, CspFor;
  }

  lemma NothingAdded()
    ensures Directives([])[4] == Directive("connect-src", ["'self'"])
  {
  }

  // ---- the header as a policy list ---------------------------------------------------------

  /** The policies a header value lists: its pieces between commas, without those that hold no directive. */
  function Policies(pieces: seq<string>): seq<seq<Directive>> {
    if pieces == [] then []
    else (if Parse(pieces[0]) == [] then [] else [Parse(pieces[0])]) + Policies(pieces[1..])
  }

  lemma {:induction false} CommaIsInAWord(words: seq<string>)
    ensures ',' in Join(words, " ") <==> exists i :: 0 <= i < |words| && ',' in words[i]
  {
    if |words| > 1 {
      CommaIsInAWord(words[1..]);
      assert forall i :: 1 <= i < |words| ==> words[i] == words[1..][i - 1];
    }
  }

  lemma CommaIsInASource(extra: seq<string>)
    ensures ',' in ContentSecurityPolicy(extra) <==> exists i :: 0 <= i < |extra| && ',' in extra[i]
  {
    hide *;
    ReplacementGives(extra);
    CommaIsInAWord(extra);
    NoCommaInThePolicy();
    ConnectTextIs(extra);
  }

  lemma ConnectTextIs(extra: seq<string>)
    ensures ConnectText(extra) == CONNECT_SRC_DIRECTIVE + (if extra == [] then "" else " " + Join(extra, " "))
  {
  }

  lemma NoCommaInThePolicy()
    ensures ',' !in BEFORE && ',' !in AFTER && ',' !in CONNECT_SRC_DIRECTIVE
  {
    NoCommaBefore();
    NoCommaAfter();
    hide BEFORE, AFTER;
  }

  lemma NoCommaBefore()
    ensures ',' !in BEFORE
  {
    NoCommaFirst();
    NoCommaSecond();
    assert BEFORE == ("default-src 'self'; " + "script-src 'self' 'unsafe-inline'; ")
                     + ("style-src 'self' 'unsafe-inline'; " + "img-src 'self' data: blob:; ");
  }

  lemma NoCommaFirst()
    ensures ',' !in "default-src 'self'; " + "script-src 'self' 'unsafe-inline'; "
  {
  }

  lemma NoCommaSecond()
    ensures ',' !in "style-src 'self' 'unsafe-inline'; " + "img-src 'self' data: blob:; "
  {
  }

  lemma NoCommaAfter()
    ensures ',' !in AFTER
  {
  }

  /** The header value lists a single policy text if and only if no source has a comma: what the refusal of commas is for. */
  lemma OneTextIffNoComma(extra: seq<string>)
    ensures |Split(ContentSecurityPolicy(extra), ',')| == 1 <==> forall i :: 0 <= i < |extra| ==> ',' !in extra[i]
  {
    hide ContentSecurityPolicy;
    var text := ContentSecurityPolicy(extra);
    CommaIsInASource(extra);
    if ',' in text {
      JoinSplit(text, ',');
    } else {
      SplitNone(text, ',');
    }
  }

  /** With accepted sources only, the header of every response is exactly one policy: that of its directives. */
  lemma HeaderIsOnePolicy(extra: seq<string>, selected: Option<bool>)
    requires forall i :: 0 <= i < |extra| ==> IsSource(extra[i])
    ensures Policies(Split(CspFor(extra, selected), ',')) == [Directives(if selected == Some(false) then [] else extra)]
  {
    hide Directives, Parse, ContentSecurityPolicy;
    var text := CspFor(extra, selected);
    EveryResponse(extra, selected);
    assert text == ContentSecurityPolicy(extra) || text == ContentSecurityPolicy([]) by { StrictIsThePolicyOfNone(); }
    CommaIsInASource(extra);
    CommaIsInASource([]);
    SplitNone(text, ',');
    DirectivesAreNotEmpty(if selected == Some(false) then [] else extra);
    assert [text][1..] == [];
  }

  lemma StrictIsThePolicyOfNone()
    ensures ContentSecurityPolicy([]) == CONTENT_SECURITY_POLICY
  {
  }

  lemma DirectivesAreNotEmpty(extra: seq<string>)
    ensures Directives(extra) != []
  {
  }
}
