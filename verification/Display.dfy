/** The display sanitizer of `src/display.rs`: untrusted text loses its escape sequences and
    its control and default-ignorable characters before a human sees it. */
module Display {
  import opened Orders

  const ESC: char := '\U{1b}'
  const BEL: char := '\U{07}'
  const REPLACEMENT: char := '\U{fffd}'

  predicate Between(c: char, low: nat, high: nat) {
    low <= c as int <= high
  }

  predicate IsControl(c: char) {
    c as int <= 0x1f || c as int == 0x7f || Between(c, 0x80, 0x9f)
  }

  /** Unicode 17.0 `Default_Ignorable_Code_Point`. */
  predicate IsDefaultIgnorable(c: char) {
    || c as int in {0xad, 0x34f, 0x61c, 0x3164, 0xfeff, 0xffa0}
    || Between(c, 0x115f, 0x1160) || Between(c, 0x17b4, 0x17b5) || Between(c, 0x180b, 0x180f)
    || Between(c, 0x200b, 0x200f) || Between(c, 0x202a, 0x202e) || Between(c, 0x2060, 0x206f)
    || Between(c, 0xfe00, 0xfe0f) || Between(c, 0xfff0, 0xfff8) || Between(c, 0x1bca0, 0x1bca3)
    || Between(c, 0x1d173, 0x1d17a) || Between(c, 0xe0000, 0xe0fff)
  }

  // ----- Escape sequences

  predicate IsParameter(c: char) { Between(c, 0x30, 0x3f) }

  predicate IsIntermediate(c: char) { Between(c, 0x20, 0x2f) }

  predicate IsCsiFinal(c: char) { Between(c, 0x40, 0x7e) }

  predicate IsFinal(c: char) { Between(c, 0x30, 0x7e) }

  /** DCS, SOS, OSC, PM and APC open a string that BEL or ST closes. */
  predicate OpensString(c: char) {
    c in {'P', 'X', ']', '^', '_'}
  }

  /** How many leading characters satisfy `p`. */
  function Run(p: char -> bool, s: string): (n: nat)
    ensures n <= |s| && forall i | 0 <= i < n :: p(s[i])
    ensures n < |s| ==> !p(s[n])
  {
    if s == [] || !p(s[0]) then 0 else 1 + Run(p, s[1..])
  }

  /** One character when `p` accepts the next one. */
  function One(p: char -> bool, s: string): nat {
    if s != [] && p(s[0]) then 1 else 0
  }

  /** Length of a control string up to and including its terminator. */
  function StringLength(s: string): (n: nat)
    ensures n <= |s|
  {
    if s == [] then 0
    else if s[0] == BEL then 1
    else if s[0] == ESC then (if |s| > 1 && s[1] == '\\' then 2 else 1)
    else 1 + StringLength(s[1..])
  }

  /** Intermediates and one final character. */
  function TailLength(s: string, csi: bool): (n: nat)
    ensures n <= |s|
  {
    var b := Run(IsIntermediate, s);
    b + (if csi then One(IsCsiFinal, s[b..]) else One(IsFinal, s[b..]))
  }

  /** Characters of the escape sequence that follows an ESC. */
  function EscapeLength(s: string): (n: nat)
    ensures n <= |s|
  {
    if s == [] then 0
    else if OpensString(s[0]) then 1 + StringLength(s[1..])
    else if s[0] == '[' then
      var n := Run(IsParameter, s[1..]);
      1 + n + TailLength(s[1..][n..], true)
    else TailLength(s, false)
  }

  // ----- Sanitizing

  /** What one character outside an escape sequence is shown as. */
  function Shown(c: char, multiline: bool): char {
    if c == '\n' && multiline then '\n'
    else if c in {'\t', '\n', '\r'} then ' '
    else if IsControl(c) || IsDefaultIgnorable(c) then REPLACEMENT
    else c
  }

  function SanitizeLayout(s: string, multiline: bool): string {
    if s == [] then []
    else if s[0] == ESC then SanitizeLayout(s[1 + EscapeLength(s[1..])..], multiline)
    else [Shown(s[0], multiline)] + SanitizeLayout(s[1..], multiline)
  }

  function Sanitize(s: string): string {
    SanitizeLayout(s, false)
  }

  /** Text that can neither steer the terminal nor hide itself. */
  ghost predicate Harmless(s: string, multiline: bool) {
    forall c | c in s ::
      (multiline && c == '\n') || (0x20 <= c as int && !(0x7f <= c as int <= 0x9f) && !IsDefaultIgnorable(c))
  }

  // ----- The scanner

  lemma Rest(text: string, from: nat, k: nat)
    requires from + k <= |text|
    ensures text[from..][k..] == text[from + k..]
  {
  }

  method SkipRun(p: char -> bool, text: string, from: nat) returns (next: nat)
    requires from <= |text|
    ensures from <= next <= |text| && next == from + Run(p, text[from..])
  {
    next := from;
    while next < |text| && p(text[next])
      invariant from <= next <= |text|
      invariant Run(p, text[from..]) == next - from + Run(p, text[next..])
    {
      assert text[next..][1..] == text[next + 1..];
      next := next + 1;
    }
  }

  method SkipString(text: string, from: nat) returns (next: nat)
    requires from <= |text|
    ensures from <= next <= |text| && next == from + StringLength(text[from..])
  {
    next := from;
    while next < |text| && text[next] != BEL && text[next] != ESC
      invariant from <= next <= |text|
      invariant StringLength(text[from..]) == next - from + StringLength(text[next..])
    {
      assert text[next..][1..] == text[next + 1..];
      next := next + 1;
    }
    if next < |text| {
      next := next + (if text[next] == ESC && next + 1 < |text| && text[next + 1] == '\\' then 2 else 1);
    }
  }

  /** Intermediates, then one final character. */
  method SkipTail(text: string, from: nat, csi: bool) returns (next: nat)
    requires from <= |text|
    ensures from <= next <= |text| && next == from + TailLength(text[from..], csi)
  {
    hide Run;
    next := SkipRun(IsIntermediate, text, from);
    Rest(text, from, next - from);
    if next < |text| && (if csi then IsCsiFinal(text[next]) else IsFinal(text[next])) {
      next := next + 1;
    }
  }

  lemma NoEscape()
    ensures EscapeLength([]) == 0
  {
  }

  lemma StringEscape(text: string, from: nat)
    requires from < |text| && OpensString(text[from])
    ensures EscapeLength(text[from..]) == 1 + StringLength(text[from + 1..])
  {
    Rest(text, from, 1);
    hide StringLength;
  }

  /** Where an escape sequence ends that opens no string. */
  lemma OtherEscape(text: string, from: nat)
    requires from < |text| && !OpensString(text[from])
    ensures var csi := text[from] == '[';
      var a := if csi then from + 1 + Run(IsParameter, text[from + 1..]) else from;
      a <= |text| && from + EscapeLength(text[from..]) == a + TailLength(text[a..], csi)
  {
    hide Run;
    hide OpensString;
    hide TailLength;
    Rest(text, from, 1);
    var a := if text[from] == '[' then from + 1 + Run(IsParameter, text[from + 1..]) else from;
    if text[from] == '[' {
      Rest(text, from + 1, a - from - 1);
    }
  }

  /** `strip_ansi_sequence` */
  method StripAnsiSequence(text: string, from: nat) returns (next: nat)
    requires from <= |text|
    ensures from <= next <= |text| && next == from + EscapeLength(text[from..])
  {
    hide Run;
    hide StringLength;
    hide OpensString;
    hide EscapeLength;
    next := from;
    if from == |text| {
      NoEscape();
      return;
    }
    if OpensString(text[from]) {
      StringEscape(text, from);
      next := SkipString(text, from + 1);
      return;
    }
    OtherEscape(text, from);
    var csi := text[from] == '[';
    if csi {
      next := SkipRun(IsParameter, text, from + 1);
    }
    next := SkipTail(text, next, csi);
  }

  /** One turn of the scanner, in terms of positions in the text. */
  lemma Grown(out: string, c: char, rest: string)
    ensures out + ([c] + rest) == (out + [c]) + rest
  {
  }

  lemma SanitizeStep(text: string, at: nat, multiline: bool)
    requires at < |text|
    ensures text[at] == ESC ==>
      SanitizeLayout(text[at..], multiline) == SanitizeLayout(text[at + 1 + EscapeLength(text[at + 1..])..], multiline)
    ensures text[at] != ESC ==>
      SanitizeLayout(text[at..], multiline) == [Shown(text[at], multiline)] + SanitizeLayout(text[at + 1..], multiline)
  {
    hide EscapeLength;
    hide Shown;
    var rest := text[at..];
    assert rest[1..] == text[at + 1..];
    assert rest[1 + EscapeLength(text[at + 1..])..] == text[at + 1 + EscapeLength(text[at + 1..])..];
  }

  lemma EmptyShown(multiline: bool)
    ensures SanitizeLayout([], multiline) == []
  {
  }

  /** `sanitize_with_layout`: the scanner shows exactly what the definition says. */
  method SanitizeWithLayout(text: string, multiline: bool) returns (out: string)
    ensures out == SanitizeLayout(text, multiline)
  {
    hide SanitizeLayout;
    hide EscapeLength;
    hide IsControl;
    hide IsDefaultIgnorable;
    out := [];
    var at := 0;
    assert text[0..] == text;
    while at < |text|
      invariant 0 <= at <= |text|
      invariant SanitizeLayout(text, multiline) == out + SanitizeLayout(text[at..], multiline)
    {
      SanitizeStep(text, at, multiline);
      var ch := text[at];
      Grown(out, Shown(ch, multiline), SanitizeLayout(text[at + 1..], multiline));
      at := at + 1;
      if ch == '\n' && multiline {
        out := out + ['\n'];
        continue;
      }
      if ch == '\t' || ch == '\n' || ch == '\r' {
        out := out + [' '];
        continue;
      }
      if ch == ESC {
        at := StripAnsiSequence(text, at);
        continue;
      }
      if IsControl(ch) || IsDefaultIgnorable(ch) {
        out := out + [REPLACEMENT];
        continue;
      }
      out := out + [ch];
    }
    EmptyShown(multiline);
    assert text[at..] == [];
  }

  // ----- What sanitizing promises

  lemma ShownHarmless(c: char, multiline: bool)
    requires c != ESC
    ensures Harmless([Shown(c, multiline)], multiline)
    ensures Shown(c, multiline) == c <==> Harmless([c], multiline)
  {
    var d := Shown(c, multiline);
    assert d in [d] && c in [c];
  }

  /** Nothing that reaches the terminal is a control or an invisible character. */
  lemma {:induction false} SanitizedHarmless(s: string, multiline: bool)
    ensures Harmless(SanitizeLayout(s, multiline), multiline)
    ensures |SanitizeLayout(s, multiline)| <= |s|
    decreases |s|
  {
    if s == [] {
    } else if s[0] == ESC {
      SanitizedHarmless(s[1 + EscapeLength(s[1..])..], multiline);
    } else {
      ShownHarmless(s[0], multiline);
      SanitizedHarmless(s[1..], multiline);
      hide Shown;
      var d := Shown(s[0], multiline);
      assert d in [d];
    }
  }

  lemma HarmlessHead(s: string, multiline: bool)
    requires Harmless(s, multiline) && s != []
    ensures s[0] != ESC && Shown(s[0], multiline) == s[0] && Harmless(s[1..], multiline)
  {
    assert s[0] in s && s[0] in [s[0]];
    assert forall c | c in s[1..] :: c in s;
    ShownHarmless(s[0], multiline);
    hide Shown;
    hide IsDefaultIgnorable;
  }

  lemma {:induction false} HarmlessUnchanged(s: string, multiline: bool)
    requires Harmless(s, multiline)
    ensures SanitizeLayout(s, multiline) == s
  {
    if s != [] {
      HarmlessHead(s, multiline);
      HarmlessUnchanged(s[1..], multiline);
      hide SanitizeLayout;
      hide Harmless;
      SanitizeStep(s, 0, multiline);
      assert s[0..] == s && s[0 + 1..] == s[1..];
      assert s == [s[0]] + s[1..];
    }
  }

  /** Sanitizing leaves a text alone exactly when the text was already harmless. */
  lemma UnchangedExactly(s: string, multiline: bool)
    ensures SanitizeLayout(s, multiline) == s <==> Harmless(s, multiline)
  {
    SanitizedHarmless(s, multiline);
    if Harmless(s, multiline) {
      HarmlessUnchanged(s, multiline);
    }
  }

  lemma SanitizeIdempotent(s: string, multiline: bool)
    ensures SanitizeLayout(SanitizeLayout(s, multiline), multiline) == SanitizeLayout(s, multiline)
  {
    SanitizedHarmless(s, multiline);
    HarmlessUnchanged(SanitizeLayout(s, multiline), multiline);
  }

  /** Text without an escape is shown character by character, whatever follows it. */
  lemma {:induction false} PlainPrefix(pre: string, rest: string, multiline: bool)
    requires ESC !in pre
    ensures SanitizeLayout(pre + rest, multiline) == SanitizeLayout(pre, multiline) + SanitizeLayout(rest, multiline)
  {
    if pre == [] {
      assert pre + rest == rest;
    } else {
      assert (pre + rest)[1..] == pre[1..] + rest;
      assert pre[0] in pre;
      PlainPrefix(pre[1..], rest, multiline);
    }
  }

  lemma {:induction false} RunThen(p: char -> bool, s: string, rest: string)
    requires forall c | c in s :: p(c)
    requires rest == [] || !p(rest[0])
    ensures Run(p, s + rest) == |s|
  {
    if s == [] {
      assert s + rest == rest;
    } else {
      assert (s + rest)[1..] == s[1..] + rest;
      assert s[0] in s;
      RunThen(p, s[1..], rest);
    }
  }

  ghost predicate IsCsi(parameters: string, intermediates: string, final: char) {
    && (forall c | c in parameters :: 0x30 <= c as int <= 0x3f)
    && (forall c | c in intermediates :: 0x20 <= c as int <= 0x2f)
    && 0x40 <= final as int <= 0x7e
  }

  lemma Regroup(a: string, b: string, c: string, d: string, e: string)
    ensures a + b + c + d + e == a + (b + (c + (d + e)))
  {
    assert a + b + c + d + e == a + b + c + (d + e);
    assert a + b + c + (d + e) == a + b + (c + (d + e));
  }

  lemma CsiStart(rest: string)
    ensures Run(IsParameter, rest) <= |rest|
    ensures EscapeLength(['['] + rest) == 1 + Run(IsParameter, rest) + TailLength(rest[Run(IsParameter, rest)..], true)
  {
    hide TailLength;
    hide Run;
    assert (['['] + rest)[1..] == rest;
  }

  lemma CsiTail(intermediates: string, final: char, post: string)
    requires (forall c | c in intermediates :: IsIntermediate(c)) && IsCsiFinal(final)
    ensures TailLength(intermediates + ([final] + post), true) == |intermediates| + 1
  {
    RunThen(IsIntermediate, intermediates, [final] + post);
    hide Run;
    assert (intermediates + ([final] + post))[|intermediates|..] == [final] + post;
  }

  lemma CsiLength(parameters: string, intermediates: string, final: char, post: string)
    requires IsCsi(parameters, intermediates, final)
    ensures EscapeLength("[" + parameters + intermediates + [final] + post) == |parameters| + |intermediates| + 2
  {
    var tail := intermediates + ([final] + post);
    assert forall c | c in intermediates :: !IsParameter(c);
    assert tail[0] in intermediates || tail[0] == final;
    RunThen(IsParameter, parameters, tail);
    CsiStart(parameters + tail);
    CsiTail(intermediates, final, post);
    hide EscapeLength;
    hide TailLength;
    hide Run;
    assert (parameters + tail)[|parameters|..] == tail;
    Regroup(['['], parameters, intermediates, [final], post);
  }

  /** A complete control sequence, in the form of section 5.4 of ECMA-48, vanishes: the text
      around it is shown as if the sequence had not been there. */
  lemma CsiVanishes(pre: string, parameters: string, intermediates: string, final: char, post: string, multiline: bool)
    requires ESC !in pre && IsCsi(parameters, intermediates, final)
    ensures SanitizeLayout(pre + [ESC] + ("[" + parameters + intermediates + [final]) + post, multiline)
         == SanitizeLayout(pre, multiline) + SanitizeLayout(post, multiline)
  {
    hide SanitizeLayout;
    hide EscapeLength;
    var sequence := "[" + parameters + intermediates + [final];
    var tail := [ESC] + (sequence + post);
    assert pre + [ESC] + sequence + post == pre + tail;
    PlainPrefix(pre, tail, multiline);
    CsiLength(parameters, intermediates, final, post);
    SanitizeStep(tail, 0, multiline);
    assert tail[0..] == tail && tail[0 + 1..] == sequence + post;
    assert tail[0 + 1 + |sequence|..] == post;
  }

  /** Intermediates, and what follows them: a final character belongs to the sequence. */
  lemma TailThen(intermediates: string, rest: string, csi: bool)
    requires forall c | c in intermediates :: 0x20 <= c as int <= 0x2f
    requires rest != [] ==> !(0x20 <= rest[0] as int <= 0x2f)
    ensures TailLength(intermediates + rest, csi) == |intermediates|
      + (if rest != [] && (if csi then 0x40 else 0x30) <= rest[0] as int <= 0x7e then 1 else 0)
  {
    RunThen(IsIntermediate, intermediates, rest);
    hide Run;
    assert (intermediates + rest)[|intermediates|..] == rest;
  }

  lemma Leading(pre: string, sequence: string, post: string)
    ensures pre + [ESC] + sequence + post == pre + ([ESC] + (sequence + post))
  {
  }

  lemma AfterSequence(sequence: string, post: string)
    ensures var tail := [ESC] + (sequence + post);
      tail[0] == ESC && tail[0..] == tail && tail[0 + 1..] == sequence + post && tail[0 + 1 + |sequence|..] == post
  {
  }

  /** An escape of known length vanishes, and the text around it is shown as if it had not been there. */
  lemma EscapeVanishes(pre: string, sequence: string, post: string, multiline: bool)
    requires ESC !in pre && EscapeLength(sequence + post) == |sequence|
    ensures SanitizeLayout(pre + [ESC] + sequence + post, multiline)
         == SanitizeLayout(pre, multiline) + SanitizeLayout(post, multiline)
  {
    hide SanitizeLayout;
    hide EscapeLength;
    var tail := [ESC] + (sequence + post);
    Leading(pre, sequence, post);
    PlainPrefix(pre, tail, multiline);
    SanitizeStep(tail, 0, multiline);
    AfterSequence(sequence, post);
  }

  /** A short escape, any intermediates and one final character, vanishes too. */
  lemma ShortEscapeVanishes(pre: string, intermediates: string, final: char, post: string, multiline: bool)
    requires ESC !in pre && (forall c | c in intermediates :: 0x20 <= c as int <= 0x2f) && 0x30 <= final as int <= 0x7e
    requires intermediates == [] ==> final !in {'[', 'P', 'X', ']', '^', '_'}
    ensures SanitizeLayout(pre + [ESC] + (intermediates + [final]) + post, multiline)
         == SanitizeLayout(pre, multiline) + SanitizeLayout(post, multiline)
  {
    var sequence := intermediates + [final];
    assert sequence + post == intermediates + ([final] + post);
    TailThen(intermediates, [final] + post, false);
    ShortLength(intermediates, [final] + post);
    EscapeVanishes(pre, sequence, post, multiline);
  }

  lemma ShortLength(intermediates: string, rest: string)
    requires forall c | c in intermediates :: 0x20 <= c as int <= 0x2f
    requires intermediates == [] ==> rest != [] && rest[0] !in {'[', 'P', 'X', ']', '^', '_'}
    ensures EscapeLength(intermediates + rest) == TailLength(intermediates + rest, false)
  {
    hide TailLength;
    var s := intermediates + rest;
    assert s[0] in intermediates || s[0] == rest[0];
  }

  lemma BrokenCsiLength(parameters: string, intermediates: string, rest: string)
    requires forall c | c in parameters :: 0x30 <= c as int <= 0x3f
    requires forall c | c in intermediates :: 0x20 <= c as int <= 0x2f
    requires rest != [] && !(0x20 <= rest[0] as int <= 0x7e)
    ensures EscapeLength(['['] + (parameters + (intermediates + rest))) == 1 + |parameters| + |intermediates|
  {
    var tail := intermediates + rest;
    assert forall c | c in intermediates :: !IsParameter(c);
    assert tail[0] in intermediates || tail[0] == rest[0];
    RunThen(IsParameter, parameters, tail);
    CsiStart(parameters + tail);
    TailThen(intermediates, rest, true);
    hide EscapeLength;
    hide TailLength;
    hide Run;
    assert (parameters + tail)[|parameters|..] == tail;
  }

  /** A broken escape takes nothing with it beyond what belongs to it: the first character that does
      not is shown. */
  lemma BrokenCsiResumes(pre: string, parameters: string, intermediates: string, next: char, post: string, multiline: bool)
    requires ESC !in pre && (forall c | c in parameters :: 0x30 <= c as int <= 0x3f)
    requires (forall c | c in intermediates :: 0x20 <= c as int <= 0x2f) && !(0x20 <= next as int <= 0x7e)
    ensures SanitizeLayout(pre + [ESC] + (['['] + (parameters + intermediates)) + ([next] + post), multiline)
         == SanitizeLayout(pre, multiline) + SanitizeLayout([next] + post, multiline)
  {
    BrokenCsiLength(parameters, intermediates, [next] + post);
    hide EscapeLength;
    Nest(['['], parameters, intermediates, [next] + post);
    EscapeVanishes(pre, ['['] + (parameters + intermediates), [next] + post, multiline);
  }

  lemma BrokenShortResumes(pre: string, intermediates: string, next: char, post: string, multiline: bool)
    requires ESC !in pre && (forall c | c in intermediates :: 0x20 <= c as int <= 0x2f) && !(0x20 <= next as int <= 0x7e)
    ensures SanitizeLayout(pre + [ESC] + intermediates + ([next] + post), multiline)
         == SanitizeLayout(pre, multiline) + SanitizeLayout([next] + post, multiline)
  {
    TailThen(intermediates, [next] + post, false);
    ShortLength(intermediates, [next] + post);
    hide EscapeLength;
    EscapeVanishes(pre, intermediates, [next] + post, multiline);
  }

  lemma Nest(a: string, b: string, c: string, d: string)
    ensures a + (b + c) + d == a + (b + (c + d))
  {
  }

  /** A control string that never ends takes the rest of the text with it. */
  lemma OpenStringSwallows(pre: string, opener: char, body: string, multiline: bool)
    requires ESC !in pre && opener in {'P', 'X', ']', '^', '_'} && BEL !in body && ESC !in body
    ensures SanitizeLayout(pre + [ESC] + ([opener] + body) + [], multiline) == SanitizeLayout(pre, multiline)
  {
    OpenerLength(opener, body);
    OpenLength(body);
    assert [opener] + body + [] == [opener] + body;
    EscapeVanishes(pre, [opener] + body, [], multiline);
    EmptyShown(multiline);
  }

  lemma {:induction false} OpenLength(body: string)
    requires BEL !in body && ESC !in body
    ensures StringLength(body) == |body|
  {
    if body != [] {
      assert body[0] in body;
      OpenLength(body[1..]);
    }
  }

  /** What one plain character becomes: whitespace controls a space, a newline itself where lines are
      kept, anything else unprintable the replacement character. */
  ghost predicate ShownAs(c: char, multiline: bool, d: char) {
    if c == '\n' && multiline then d == '\n'
    else if c == '\t' || c == '\n' || c == '\r' then d == ' '
    else if c as int < 0x20 || 0x7f <= c as int <= 0x9f || IsDefaultIgnorable(c) then d == '\U{fffd}'
    else d == c
  }

  /** Text without escapes is shown character by character. */
  lemma {:induction false} PlainText(s: string, multiline: bool)
    requires ESC !in s
    ensures |SanitizeLayout(s, multiline)| == |s|
    ensures forall i | 0 <= i < |s| :: ShownAs(s[i], multiline, SanitizeLayout(s, multiline)[i])
  {
    if s != [] {
      PlainText(s[1..], multiline);
      PlainStep(s, multiline);
      hide SanitizeLayout;
      hide ShownAs;
      assert forall i | 0 < i < |s| :: s[i] == s[1..][i-1];
    }
  }

  lemma PlainStep(s: string, multiline: bool)
    requires ESC !in s && s != []
    ensures SanitizeLayout(s, multiline) == [Shown(s[0], multiline)] + SanitizeLayout(s[1..], multiline)
    ensures ShownAs(s[0], multiline, Shown(s[0], multiline))
  {
    hide IsDefaultIgnorable;
  }

  /** Characters that reorder, join or hide text: bidirectional controls, zero-width and
      variation characters, soft hyphens, byte-order marks and tags. */
  ghost predicate Deceptive(c: char) {
    var n := c as int;
    || 0x202a <= n <= 0x202e || 0x2066 <= n <= 0x2069 || n in {0x200e, 0x200f, 0x061c}
    || 0x200b <= n <= 0x200d || n in {0x2060, 0xfeff, 0x00ad} || 0xfe00 <= n <= 0xfe0f || 0xe0000 <= n <= 0xe007f
  }

  lemma NothingDeceptive(s: string, multiline: bool)
    ensures forall c | c in SanitizeLayout(s, multiline) :: !Deceptive(c) && c != ESC
  {
    SanitizedHarmless(s, multiline);
  }

  lemma {:induction false} StringThen(body: string, end: string, post: string)
    requires BEL !in body && ESC !in body
    requires end == [BEL] || end == [ESC, '\\']
    ensures StringLength(body + end + post) == |body| + |end|
  {
    var s := body + end + post;
    if body == [] {
      assert s == end + post;
    } else {
      assert s[1..] == body[1..] + end + post;
      assert s[0] == body[0] && body[0] in body;
      StringThen(body[1..], end, post);
    }
  }

  /** A terminated control string (a window title, say) vanishes with everything inside it. */
  lemma ControlStringVanishes(pre: string, opener: char, body: string, end: string, post: string, multiline: bool)
    requires ESC !in pre && opener in {'P', 'X', ']', '^', '_'}
    requires BEL !in body && ESC !in body
    requires end == [BEL] || end == [ESC, '\\']
    ensures SanitizeLayout(pre + [ESC, opener] + body + end + post, multiline)
         == SanitizeLayout(pre, multiline) + SanitizeLayout(post, multiline)
  {
    hide SanitizeLayout;
    var inner := [opener] + (body + end + post);
    var tail := [ESC] + inner;
    assert pre + [ESC, opener] + body + end + post == pre + tail;
    PlainPrefix(pre, tail, multiline);
    ControlStringSkipped(opener, body, end, post, multiline);
    hide *;
  }

  lemma ControlStringSkipped(opener: char, body: string, end: string, post: string, multiline: bool)
    requires OpensString(opener)
    requires BEL !in body && ESC !in body
    requires end == [BEL] || end == [ESC, '\\']
    ensures SanitizeLayout([ESC] + ([opener] + (body + end + post)), multiline) == SanitizeLayout(post, multiline)
  {
    hide SanitizeLayout;
    var inner := [opener] + (body + end + post);
    var tail := [ESC] + inner;
    OpenerLength(opener, body + end + post);
    StringThen(body, end, post);
    SanitizeStep(tail, 0, multiline);
    hide EscapeLength;
    hide StringLength;
    assert tail[0..] == tail && tail[0 + 1..] == inner;
    assert tail[0 + 1 + (1 + |body| + |end|)..] == post;
  }

  lemma OpenerLength(opener: char, rest: string)
    requires OpensString(opener)
    ensures EscapeLength([opener] + rest) == 1 + StringLength(rest)
  {
    assert ([opener] + rest)[1..] == rest;
  }

  // ----- Bounded output

  function Utf8Length(c: char): nat {
    if c as int < 0x80 then 1 else if c as int < 0x800 then 2 else if c as int < 0x10000 then 3 else 4
  }

  function ByteLength(s: string): nat {
    if s == [] then 0 else ByteLength(s[..|s| - 1]) + Utf8Length(s[|s| - 1])
  }

  /** The UTF-8 form of a scalar value, as in section 3 of RFC 3629. */
  ghost function Encode(c: char): seq<nat> {
    var n := c as int;
    if n < 0x80 then [n]
    else if n < 0x800 then [0xc0 + n / 0x40, 0x80 + n % 0x40]
    else if n < 0x10000 then [0xe0 + n / 0x1000, 0x80 + n / 0x40 % 0x40, 0x80 + n % 0x40]
    else [0xf0 + n / 0x40000, 0x80 + n / 0x1000 % 0x40, 0x80 + n / 0x40 % 0x40, 0x80 + n % 0x40]
  }

  ghost function EncodeAll(s: string): seq<nat> {
    if s == [] then [] else EncodeAll(s[..|s| - 1]) + Encode(s[|s| - 1])
  }

  /** The byte length of a text is the length of its encoding. */
  lemma {:induction false} BytesOfEncoding(s: string)
    ensures ByteLength(s) == |EncodeAll(s)|
  {
    if s != [] {
      BytesOfEncoding(s[..|s| - 1]);
    }
  }

  lemma {:induction false} ByteLengthGrows(s: string, i: nat, j: nat)
    requires i <= j <= |s|
    ensures ByteLength(s[..i]) + (j - i) <= ByteLength(s[..j])
    decreases j
  {
    if i < j {
      assert s[..j][..j - 1] == s[..j - 1];
      ByteLengthGrows(s, i, j - 1);
    }
  }

  /** `n` scalars take exactly `end` bytes. */
  predicate BoundaryAt(s: string, n: nat, end: nat) {
    n <= |s| && ByteLength(s[..n]) == end
  }

  predicate IsCharBoundary(s: string, end: nat) {
    exists n | 0 <= n <= |s| :: BoundaryAt(s, n, end)
  }

  /** The longest prefix of whole scalars within a byte bound. */
  ghost predicate LongestWithin(r: string, s: string, maxBytes: nat) {
    && r <= s && ByteLength(r) <= maxBytes
    && forall n | |r| < n <= |s| :: ByteLength(s[..n]) > maxBytes
  }

  /** Dropping scalars from the end until the rest fits. */
  function CutTo(s: string, maxBytes: nat): string {
    if ByteLength(s) <= maxBytes then s else CutTo(s[..|s| - 1], maxBytes)
  }

  /** What `sanitize_bounded` shows of a text. */
  function Bounded(text: string, maxBytes: nat): string {
    CutTo(Sanitize(text), maxBytes)
  }

  lemma {:induction false} CutIsLongest(s: string, maxBytes: nat, r: string)
    requires LongestWithin(r, s, maxBytes)
    ensures r == CutTo(s, maxBytes)
  {
    if |r| == |s| {
      assert s[..|r|] == s && r == s[..|r|];
    } else {
      var shorter := s[..|s| - 1];
      assert s[..|s|] == s;
      assert forall n | 0 <= n < |s| :: shorter[..n] == s[..n];
      CutIsLongest(shorter, maxBytes, r);
    }
  }

  lemma {:induction false} CutFits(s: string, maxBytes: nat)
    ensures CutTo(s, maxBytes) <= s && ByteLength(CutTo(s, maxBytes)) <= maxBytes
  {
    if ByteLength(s) > maxBytes {
      CutFits(s[..|s| - 1], maxBytes);
    }
  }

  /** Whatever the text, its bounded form is a harmless prefix of its sanitized form. */
  lemma BoundedShown(text: string, maxBytes: nat)
    ensures Bounded(text, maxBytes) <= Sanitize(text) && ByteLength(Bounded(text, maxBytes)) <= maxBytes
    ensures Harmless(Bounded(text, maxBytes), false)
  {
    CutFits(Sanitize(text), maxBytes);
    SanitizedHarmless(text, false);
    assert forall c | c in Bounded(text, maxBytes) :: c in Sanitize(text);
  }

  /** `sanitize_bounded`: the longest sanitized prefix that fits, cut between scalars. */
  method SanitizeBounded(text: string, maxBytes: nat) returns (r: string)
    ensures LongestWithin(r, Sanitize(text), maxBytes)
    ensures r == Bounded(text, maxBytes)
  {
    hide SanitizeLayout;
    var sanitized := SanitizeWithLayout(text, false);
    assert sanitized[..|sanitized|] == sanitized;
    if ByteLength(sanitized) <= maxBytes {
      return sanitized;
    }
    hide CutTo;
    var end := maxBytes;
    assert BoundaryAt(sanitized, 0, 0);
    while !IsCharBoundary(sanitized, end)
      invariant 0 <= end <= maxBytes
      invariant forall n | 0 <= n <= |sanitized| :: !(end < ByteLength(sanitized[..n]) <= maxBytes)
      decreases end
    {
      forall n | 0 <= n <= |sanitized| ensures ByteLength(sanitized[..n]) != end {
        assert !BoundaryAt(sanitized, n, end);
      }
      end := end - 1;
    }
    var n :| 0 <= n <= |sanitized| && BoundaryAt(sanitized, n, end);
    r := sanitized[..n];
    forall m | n < m <= |sanitized| ensures ByteLength(sanitized[..m]) > maxBytes {
      ByteLengthGrows(sanitized, n, m);
    }
    CutIsLongest(sanitized, maxBytes, r);
  }

  /** Bounding keeps every promise of sanitizing, and the cut text is itself stable. */
  lemma BoundedHarmless(text: string, maxBytes: nat, r: string)
    requires LongestWithin(r, Sanitize(text), maxBytes)
    ensures Harmless(r, false) && Sanitize(r) == r
    ensures r == Sanitize(text) <==> ByteLength(Sanitize(text)) <= maxBytes
  {
    var s := Sanitize(text);
    SanitizedHarmless(text, false);
    assert s[..|s|] == s;
    assert forall c | c in r :: c in s;
    HarmlessUnchanged(r, false);
  }
}
