/** The stored-procedure signature grammar, `NAME` or `NAME(m, m, ...)` with each `m` one of
    `<`, `>`, `=`, and the two steps the source applies to it: whole-text recognition by the
    pattern SPROC_PATTERN, then splitting of the parenthesised group on a comma followed by
    one whitespace character. The two steps do not agree on what separates modes: the pattern
    admits a comma followed by any number of whitespace characters, the split cuts only at a
    comma followed by exactly one. */
module Signature {
  import opened DbTypes

  // Character classes of the pattern. \p{Alpha} and \p{Digit} are the US-ASCII classes,
  // \s is [ \t\n\x0B\f\r].

  predicate IsAlpha(c: char) { 'a' <= c <= 'z' || 'A' <= c <= 'Z' }

  predicate IsDigit(c: char) { '0' <= c <= '9' }

  predicate IsNameStart(c: char) { IsAlpha(c) || c == '_' }

  predicate IsNameChar(c: char) { IsAlpha(c) || IsDigit(c) || c == '@' || c == '$' || c == '#' || c == '_' }

  predicate IsModeChar(c: char) { c == '<' || c == '>' || c == '=' }

  predicate IsWs(c: char) { c == ' ' || c == '\t' || c == '\n' || c == '\U{B}' || c == '\U{C}' || c == '\r' }

  predicate AllWs(s: string) { forall i :: 0 <= i < |s| ==> IsWs(s[i]) }

  predicate AllNameChars(s: string) { forall i :: 0 <= i < |s| ==> IsNameChar(s[i]) }

  // ---------------------------------------------------------------------------------------
  // The structure of an accepted signature, and the text it stands for

  /** One `, ws m` step of the mode list: the whitespace after the comma and the mode. */
  datatype Sep = Sep(ws: string, mode: char)

  /** The optional parenthesised group: absent, `()`, or `(first sep...)`. */
  datatype Group = NoGroup | EmptyGroup | Modes(first: char, seps: seq<Sep>)

  datatype SigForm = SigForm(name: string, group: Group)

  /** A procedure name as the pattern's group 1 accepts it. */
  predicate IsName(name: string)
  {
    |name| >= 1 && IsNameStart(name[0]) && AllNameChars(name[1..])
  }

  ghost predicate WellFormed(f: SigForm)
  {
    IsName(f.name) && GroupWellFormed(f.group)
  }

  ghost predicate GroupWellFormed(g: Group)
  {
    g.Modes? ==> IsModeChar(g.first) && SepsWellFormed(g.seps)
  }

  ghost predicate SepsWellFormed(seps: seq<Sep>)
  {
    forall k :: 0 <= k < |seps| ==> AllWs(seps[k].ws) && IsModeChar(seps[k].mode)
  }

  function SepsText(seps: seq<Sep>): string
  {
    if seps == [] then "" else [','] + seps[0].ws + [seps[0].mode] + SepsText(seps[1..])
  }

  /** The text between the parentheses of a non-empty group (the pattern's group 2). */
  function ModesText(first: char, seps: seq<Sep>): string
  {
    [first] + SepsText(seps)
  }

  function GroupText(g: Group): string
  {
    match g
    case NoGroup => ""
    case EmptyGroup => "()"
    case Modes(first, seps) => "(" + ModesText(first, seps) + ")"
  }

  function Render(f: SigForm): string
  {
    f.name + GroupText(f.group)
  }

  // ---------------------------------------------------------------------------------------
  // The recogniser (SPROC_PATTERN with Matcher.matches)

  /** Length of the longest prefix of `s` made of name characters. */
  function NameCharsLen(s: string): (n: nat)
    ensures n <= |s| && AllNameChars(s[..n])
    ensures n < |s| ==> !IsNameChar(s[n])
  {
    if s != [] && IsNameChar(s[0]) then
      var n := 1 + NameCharsLen(s[1..]);
      assert s[..n] == [s[0]] + s[1..][..n - 1];
      n
    else 0
  }

  /** Length of the longest prefix of `s` made of whitespace. */
  function WsLen(s: string): (n: nat)
    ensures n <= |s| && AllWs(s[..n])
    ensures n < |s| ==> !IsWs(s[n])
  {
    if s != [] && IsWs(s[0]) then
      var n := 1 + WsLen(s[1..]);
      assert s[..n] == [s[0]] + s[1..][..n - 1];
      n
    else 0
  }

  /** Recognises `(',' ws* m)*` in full. The greedy `ws*` loses nothing: a mode character
      is never whitespace. */
  function ParseSeps(t: string): Option<seq<Sep>>
    decreases |t|
  {
    if t == [] then Some([])
    else if t[0] != ',' then None
    else
      var w := WsLen(t[1..]);
      var u := t[1 + w..];
      if u == [] || !IsModeChar(u[0]) then None
      else match ParseSeps(u[1..])
        case None => None
        case Some(rest) => Some([Sep(t[1..1 + w], u[0])] + rest)
  }

  /** Recognises `m (',' ws* m)*` in full. */
  function ParseModes(g: string): Option<Group>
  {
    if g == [] || !IsModeChar(g[0]) then None
    else match ParseSeps(g[1..])
      case None => None
      case Some(seps) => Some(Modes(g[0], seps))
  }

  /** What may follow the name: nothing, `()`, or a mode list in parentheses. */
  function RecogniseGroup(rest: string): Option<Group>
  {
    if rest == [] then Some(NoGroup)
    else if |rest| < 2 || rest[0] != '(' || rest[|rest| - 1] != ')' then None
    else
      var inner := rest[1..|rest| - 1];
      if inner == [] then Some(EmptyGroup) else ParseModes(inner)
  }

  /** Whole-text match of SPROC_PATTERN. The name is the longest run of name characters,
      since `(` is not one of them; the group must take up the rest. */
  function Recognise(s: string): Option<SigForm>
  {
    if s == [] || !IsNameStart(s[0]) then None
    else
      var n := 1 + NameCharsLen(s[1..]);
      match RecogniseGroup(s[n..])
      case None => None
      case Some(g) => Some(SigForm(s[..n], g))
  }

  // ---------------------------------------------------------------------------------------
  // String.split(",\\s")

  predicate SepAt(s: string, i: int)
  {
    0 <= i && i + 1 < |s| && s[i] == ',' && IsWs(s[i + 1])
  }

  /** No `,\s` occurs anywhere in `s`. */
  predicate NoSep(s: string)
  {
    forall i :: 0 <= i < |s| ==> !SepAt(s, i)
  }

  /** The pieces between left-to-right, non-overlapping occurrences of `,\s`, including
      empty ones. */
  function SplitRaw(s: string): (r: seq<string>)
    ensures |r| >= 1
    decreases |s|
  {
    if s == [] then [""]
    else if SepAt(s, 0) then [""] + SplitRaw(s[2..])
    else
      var r := SplitRaw(s[1..]);
      [[s[0]] + r[0]] + r[1..]
  }

  function DropTrailingEmpty(ps: seq<string>): (r: seq<string>)
    ensures |r| <= |ps| && r == ps[..|r|]
    ensures r != [] ==> r[|r| - 1] != ""
    ensures forall k :: |r| <= k < |ps| ==> ps[k] == ""
  {
    if ps == [] then []
    else if ps[|ps| - 1] == "" then DropTrailingEmpty(ps[..|ps| - 1])
    else ps
  }

  /** Java's String.split with limit 0: a text without any match is returned whole (so ""
      gives [""]); otherwise the pieces, with the trailing empty ones removed. */
  function JavaSplit(s: string): seq<string>
  {
    if s == [] then [""] else DropTrailingEmpty(SplitRaw(s))
  }

  // ---------------------------------------------------------------------------------------
  // The parse as the caller sees it

  datatype ParsedSignature = ParsedSignature(name: string, args: seq<string>)

  /** The pattern's group 2: the text inside the parentheses, null when the group is absent
      or empty. */
  function Group2(g: Group): Option<string>
  {
    match g
    case Modes(first, seps) => Some(ModesText(first, seps))
    case _ => None
  }

  /** The signature step of executeStoredProcedure: name and argument pieces, or the error
      naming the descriptor's constant and the raw text. */
  function ParseSignature(constant: string, signature: string): Result<ParsedSignature, Error>
  {
    match Recognise(signature)
    case None => Err(UnsupportedSignature(constant, signature))
    case Some(f) =>
      match Group2(f.group)
      case None => Ok(ParsedSignature(f.name, []))
      case Some(g) => Ok(ParsedSignature(f.name, JavaSplit(g)))
  }

  /** The pieces the split yields when the current piece so far is `cur`: a separator whose
      whitespace is empty does not cut, one with whitespace cuts and leaves the whitespace
      after the first character at the start of the next piece. */
  function GroupPieces(cur: string, seps: seq<Sep>): (r: seq<string>)
    ensures |r| >= 1
    decreases |seps|
  {
    if seps == [] then [cur]
    else if seps[0].ws == [] then GroupPieces(cur + [',', seps[0].mode], seps[1..])
    else [cur] + GroupPieces(seps[0].ws[1..] + [seps[0].mode], seps[1..])
  }

  /** Number of separators carrying at least one whitespace character. */
  function CountCuts(seps: seq<Sep>): nat
  {
    if seps == [] then 0 else (if seps[0].ws == [] then 0 else 1) + CountCuts(seps[1..])
  }

  predicate SingleSpaced(seps: seq<Sep>)
  {
    forall k :: 0 <= k < |seps| ==> |seps[k].ws| == 1
  }

  // ---------------------------------------------------------------------------------------
  // Recognition is exact: soundness and completeness against Render

  lemma {:induction false} NameCharsLenOfName(name: string, rest: string)
    requires AllNameChars(name)
    requires rest == [] || !IsNameChar(rest[0])
    ensures NameCharsLen(name + rest) == |name|
    decreases |name|
  {
    if name == [] {
      assert name + rest == rest;
    } else {
      assert (name + rest)[1..] == name[1..] + rest;
      NameCharsLenOfName(name[1..], rest);
    }
  }

  lemma {:induction false} WsLenOfWs(ws: string, rest: string)
    requires AllWs(ws)
    requires rest == [] || !IsWs(rest[0])
    ensures WsLen(ws + rest) == |ws|
    decreases |ws|
  {
    if ws == [] {
      assert ws + rest == rest;
    } else {
      assert (ws + rest)[1..] == ws[1..] + rest;
      WsLenOfWs(ws[1..], rest);
    }
  }

  /** ParseSeps on a text that starts with a comma, whitespace and a mode, followed by a
      text it accepts. */
  lemma ParseSepsFront(ws: string, m: char, rest: string, r: seq<Sep>)
    requires AllWs(ws) && IsModeChar(m) && ParseSeps(rest) == Some(r)
    ensures ParseSeps([','] + ws + [m] + rest) == Some([Sep(ws, m)] + r)
  {
    var t := [','] + ws + [m] + rest;
    assert t[1..] == ws + ([m] + rest);
    WsLenOfWs(ws, [m] + rest);
    var w := |ws|;
    assert t[1 + w..] == [m] + rest;
    assert t[1..1 + w] == ws;
    var u := t[1 + w..];
    assert t[0] == ',' && u[0] == m && u[1..] == rest;
    assert ParseSeps(u[1..]) == Some(r);
  }

  lemma {:induction false} ParseSepsText(seps: seq<Sep>)
    requires SepsWellFormed(seps)
    ensures ParseSeps(SepsText(seps)) == Some(seps)
    decreases |seps|
  {
    if seps != [] {
      var s := seps[0];
      SepsWellFormedCons(seps);
      ParseSepsText(seps[1..]);
      var t := [','] + s.ws + [s.mode] + SepsText(seps[1..]);
      assert SepsText(seps) == t;
      ParseSepsFront(s.ws, s.mode, SepsText(seps[1..]), seps[1..]);
      HeadTail(seps);
    }
  }

  /** One step of ParseSeps on a non-empty text, unfolded. */
  lemma ParseSepsStep(t: string, seps: seq<Sep>) returns (ws: string, m: char, rest: string)
    requires t != [] && ParseSeps(t) == Some(seps)
    ensures t == [','] + ws + [m] + rest && |rest| < |t|
    ensures AllWs(ws) && IsModeChar(m)
    ensures seps == [Sep(ws, m)] + seps[1..]
    ensures ParseSeps(rest) == Some(seps[1..])
  {
    var w := WsLen(t[1..]);
    ws, m, rest := t[1..1 + w], t[1 + w], t[2 + w..];
    var u := t[1 + w..];
    assert u[1..] == rest;
    assert ws == t[1..][..w];
    SliceAround(t, 1 + w);
  }

  /** A text is its first character, the slice up to `j`, the character at `j` and the rest. */
  lemma SliceAround(t: string, j: nat)
    requires 0 < j < |t|
    ensures t == [t[0]] + t[1..j] + [t[j]] + t[j + 1..]
  {
  }

  lemma HeadTail<T>(xs: seq<T>)
    requires xs != []
    ensures [xs[0]] + xs[1..] == xs
  {
  }

  /** A non-empty separator list is well formed when its head and its tail are. */
  lemma SepsWellFormedCons(seps: seq<Sep>)
    requires seps != []
    ensures SepsWellFormed(seps) <==>
      AllWs(seps[0].ws) && IsModeChar(seps[0].mode) && SepsWellFormed(seps[1..])
  {
    if AllWs(seps[0].ws) && IsModeChar(seps[0].mode) && SepsWellFormed(seps[1..]) {
      forall k | 0 <= k < |seps| ensures AllWs(seps[k].ws) && IsModeChar(seps[k].mode) {
        if k > 0 { assert seps[k] == seps[1..][k - 1]; }
      }
    }
  }

  /** Putting a well-formed separator in front of a well-formed list. */
  lemma SepsCons(ws: string, m: char, seps: seq<Sep>)
    requires AllWs(ws) && IsModeChar(m) && SepsWellFormed(seps)
    ensures SepsWellFormed([Sep(ws, m)] + seps)
    ensures SepsText([Sep(ws, m)] + seps) == [','] + ws + [m] + SepsText(seps)
  {
    var all := [Sep(ws, m)] + seps;
    assert all[1..] == seps;
    SepsWellFormedCons(all);
  }

  lemma {:induction false} ParseSepsSound(t: string, seps: seq<Sep>)
    requires ParseSeps(t) == Some(seps)
    ensures SepsWellFormed(seps) && SepsText(seps) == t
    decreases |t|
  {
    if t != [] {
      var ws, m, rest := ParseSepsStep(t, seps);
      ParseSepsSound(rest, seps[1..]);
      SepsCons(ws, m, seps[1..]);
    }
  }

  /** Every well-formed group text is recognised as that group. */
  lemma RecogniseGroupText(g: Group)
    requires GroupWellFormed(g)
    ensures RecogniseGroup(GroupText(g)) == Some(g)
  {
    var gt := GroupText(g);
    match g
    case NoGroup =>
    case EmptyGroup =>
      assert gt[1..|gt| - 1] == [];
    case Modes(first, seps) =>
      var inner := ModesText(first, seps);
      assert gt[1..|gt| - 1] == inner;
      assert inner[1..] == SepsText(seps);
      ParseSepsText(seps);
  }

  /** A recognised mode list is well formed and is exactly its text. */
  lemma ModesTextRecognised(inner: string, g: Group)
    requires ParseModes(inner) == Some(g)
    ensures GroupWellFormed(g) && g.Modes? && ModesText(g.first, g.seps) == inner
  {
    ParseSepsSound(inner[1..], g.seps);
    assert inner == [inner[0]] + inner[1..];
  }

  /** A recognised group is well formed and is exactly the text it was recognised in. */
  lemma GroupTextRecognised(rest: string, g: Group)
    requires RecogniseGroup(rest) == Some(g)
    ensures GroupWellFormed(g) && GroupText(g) == rest
  {
    if rest != [] {
      var inner := rest[1..|rest| - 1];
      assert rest == "(" + inner + ")";
      if inner != [] {
        ModesTextRecognised(inner, g);
      }
    }
  }

  /** Every well-formed signature is recognised, and recognised as itself. */
  lemma RecogniseRender(f: SigForm)
    requires WellFormed(f)
    ensures Recognise(Render(f)) == Some(f)
  {
    var s := Render(f);
    var gt := GroupText(f.group);
    assert s == [f.name[0]] + (f.name[1..] + gt);
    assert s[1..] == f.name[1..] + gt;
    assert gt == [] || gt[0] == '(';
    NameCharsLenOfName(f.name[1..], gt);
    var n := |f.name|;
    assert s[..n] == f.name && s[n..] == gt;
    RecogniseGroupText(f.group);
  }

  /** A recognised text is the recognised name followed by the text of the group. */
  lemma RecogniseParts(s: string, f: SigForm)
    requires Recognise(s) == Some(f)
    ensures 1 <= |f.name| <= |s| && f.name == s[..|f.name|]
    ensures IsNameStart(f.name[0]) && AllNameChars(f.name[1..])
    ensures RecogniseGroup(s[|f.name|..]) == Some(f.group)
  {
    var n := 1 + NameCharsLen(s[1..]);
    assert f.name == s[..n];
    assert f.name[1..] == s[1..][..n - 1];
  }

  /** Whatever is recognised is a well-formed signature, and is exactly its text. */
  lemma RenderRecognise(s: string, f: SigForm)
    requires Recognise(s) == Some(f)
    ensures WellFormed(f) && Render(f) == s
  {
    RecogniseParts(s, f);
    var n := |f.name|;
    GroupTextRecognised(s[n..], f.group);
    assert s == s[..n] + s[n..];
  }

  /** The pattern accepts exactly the texts of well-formed signatures; any other text is
      rejected with the error naming the constant and the raw text. */
  lemma SignatureAccepted(constant: string, s: string)
    ensures ParseSignature(constant, s).Ok? <==> exists f :: WellFormed(f) && Render(f) == s
    ensures ParseSignature(constant, s).Err? ==> ParseSignature(constant, s).error == UnsupportedSignature(constant, s)
  {
    if ParseSignature(constant, s).Ok? {
      var f := Recognise(s).value;
      RenderRecognise(s, f);
    }
    if exists f :: WellFormed(f) && Render(f) == s {
      var f :| WellFormed(f) && Render(f) == s;
      RecogniseRender(f);
    }
  }

  // ---------------------------------------------------------------------------------------
  // What the split makes of an accepted mode list

  lemma NoSepTail(a: string)
    requires a != [] && NoSep(a)
    ensures NoSep(a[1..])
  {
    forall i | 0 <= i < |a[1..]| ensures !SepAt(a[1..], i) { assert !SepAt(a, i + 1); }
  }

  /** A character that does not start a `,\s` joins the first piece of what follows. */
  lemma SplitRawConsChar(c: char, rest: string)
    requires !SepAt([c] + rest, 0)
    ensures SplitRaw([c] + rest) == [[c] + SplitRaw(rest)[0]] + SplitRaw(rest)[1..]
  {
    assert ([c] + rest)[1..] == rest;
  }

  lemma {:induction false} SplitRawNoSep(a: string, b: string)
    requires NoSep(a)
    requires a == [] || a[|a| - 1] != ','
    ensures SplitRaw(a + b) == [a + SplitRaw(b)[0]] + SplitRaw(b)[1..]
    decreases |a|
  {
    var r := SplitRaw(b);
    if a == [] {
      assert a + b == b;
      assert a + r[0] == r[0];
      assert r == [r[0]] + r[1..];
    } else {
      var rest := a[1..] + b;
      assert a + b == [a[0]] + rest;
      assert !SepAt([a[0]] + rest, 0) by {
        assert !SepAt(a, 0);
        if |a| >= 2 { assert rest[0] == a[1]; }
      }
      SplitRawConsChar(a[0], rest);
      NoSepTail(a);
      SplitRawNoSep(a[1..], b);
      assert [a[0]] + (a[1..] + r[0]) == a + r[0];
    }
  }

  /** A text with no `,\s` anywhere in it is not cut. */
  lemma {:induction false} SplitRawWhole(a: string)
    requires NoSep(a)
    ensures SplitRaw(a) == [a]
    decreases |a|
  {
    if a != [] {
      assert !SepAt(a, 0);
      NoSepTail(a);
      SplitRawWhole(a[1..]);
      assert [a[0]] + a[1..] == a;
    }
  }

  /** What a piece under construction looks like: no `,\s` inside, and it ends with a mode
      character. */
  ghost predicate PieceSoFar(cur: string)
  {
    cur != [] && NoSep(cur) && IsModeChar(cur[|cur| - 1])
  }

  /** A piece under construction stays one when a separator without whitespace and a mode
      are appended. */
  lemma PieceExtend(cur: string, m: char)
    requires PieceSoFar(cur) && IsModeChar(m)
    ensures PieceSoFar(cur + [',', m])
  {
    var cur' := cur + [',', m];
    forall i | 0 <= i < |cur'| ensures !SepAt(cur', i) {
      if i < |cur| - 1 { assert !SepAt(cur, i); }
    }
  }

  /** After a cut, the separator's remaining whitespace and its mode start a new piece. */
  lemma PieceStart(ws: string, m: char)
    requires ws != [] && AllWs(ws) && IsModeChar(m)
    ensures PieceSoFar(ws[1..] + [m])
  {
    var next := ws[1..] + [m];
    forall i | 0 <= i < |next| ensures !SepAt(next, i) {
      if i < |next| - 1 { assert next[i] == ws[i + 1]; }
    }
  }

  /** A `,\s` right after a finished piece ends that piece. */
  lemma SplitRawCut(cur: string, w: char, rest: string)
    requires PieceSoFar(cur) && IsWs(w)
    ensures SplitRaw(cur + ([',', w] + rest)) == [cur] + SplitRaw(rest)
  {
    var y := [',', w] + rest;
    SplitRawNoSep(cur, y);
    assert SepAt(y, 0);
    assert y[2..] == rest;
    assert cur + "" == cur;
  }

  /** The text of a separator list whose first separator has whitespace: a `,\s` and the
      rest of the text. */
  lemma SepsTextCut(seps: seq<Sep>)
    requires seps != [] && seps[0].ws != []
    ensures SepsText(seps) == [',', seps[0].ws[0]] + (seps[0].ws[1..] + [seps[0].mode] + SepsText(seps[1..]))
  {
    var s := seps[0];
    assert s.ws == [s.ws[0]] + s.ws[1..];
  }

  lemma {:induction false} SplitGroupPieces(cur: string, seps: seq<Sep>)
    requires PieceSoFar(cur)
    requires SepsWellFormed(seps)
    ensures SplitRaw(cur + SepsText(seps)) == GroupPieces(cur, seps)
    decreases |seps|
  {
    if seps == [] {
      assert cur + SepsText(seps) == cur;
      SplitRawWhole(cur);
    } else {
      var s := seps[0];
      var tail := SepsText(seps[1..]);
      SepsWellFormedCons(seps);
      if s.ws == [] {
        var cur' := cur + [',', s.mode];
        assert cur + SepsText(seps) == cur' + tail;
        PieceExtend(cur, s.mode);
        SplitGroupPieces(cur', seps[1..]);
      } else {
        var next := s.ws[1..] + [s.mode];
        SepsTextCut(seps);
        SplitRawCut(cur, s.ws[0], next + tail);
        PieceStart(s.ws, s.mode);
        SplitGroupPieces(next, seps[1..]);
      }
    }
  }

  lemma {:induction false} GroupPiecesCount(cur: string, seps: seq<Sep>)
    ensures |GroupPieces(cur, seps)| == 1 + CountCuts(seps)
    decreases |seps|
  {
    if seps != [] {
      if seps[0].ws == [] {
        GroupPiecesCount(cur + [',', seps[0].mode], seps[1..]);
      } else {
        GroupPiecesCount(seps[0].ws[1..] + [seps[0].mode], seps[1..]);
      }
    }
  }

  lemma {:induction false} GroupPiecesNonEmpty(cur: string, seps: seq<Sep>)
    requires cur != []
    ensures forall k :: 0 <= k < |GroupPieces(cur, seps)| ==> GroupPieces(cur, seps)[k] != []
    decreases |seps|
  {
    if seps != [] {
      if seps[0].ws == [] {
        GroupPiecesNonEmpty(cur + [',', seps[0].mode], seps[1..]);
      } else {
        GroupPiecesNonEmpty(seps[0].ws[1..] + [seps[0].mode], seps[1..]);
      }
    }
  }

  lemma {:induction false} GroupPiecesSingleSpaced(cur: string, seps: seq<Sep>)
    requires SingleSpaced(seps)
    ensures GroupPieces(cur, seps) == [cur] + seq(|seps|, k requires 0 <= k < |seps| => [seps[k].mode])
    decreases |seps|
  {
    if seps != [] {
      assert seps[0].ws[1..] == [];
      assert [] + [seps[0].mode] == [seps[0].mode];
      assert SingleSpaced(seps[1..]) by {
        forall k | 0 <= k < |seps[1..]| ensures |seps[1..][k].ws| == 1 { assert seps[1..][k] == seps[k + 1]; }
      }
      GroupPiecesSingleSpaced([seps[0].mode], seps[1..]);
    }
  }

  lemma LastPieceNonEmpty(cur: string, seps: seq<Sep>)
    requires cur != []
    ensures GroupPieces(cur, seps)[|GroupPieces(cur, seps)| - 1] != []
  {
    GroupPiecesNonEmpty(cur, seps);
  }

  /** Splitting an accepted mode list yields the pieces GroupPieces describes. */
  lemma SplitModes(first: char, seps: seq<Sep>)
    requires IsModeChar(first) && SepsWellFormed(seps)
    ensures JavaSplit(ModesText(first, seps)) == GroupPieces([first], seps)
  {
    SplitGroupPieces([first], seps);
    LastPieceNonEmpty([first], seps);
  }

  /** On an accepted signature, the argument list is empty without a group or for `()`;
      otherwise it has one piece per separator that carries whitespace, plus one, and every
      piece is non-empty (so its first character exists). */
  lemma ParsedArgs(constant: string, s: string)
    requires ParseSignature(constant, s).Ok?
    ensures var f := Recognise(s).value;
      var args := ParseSignature(constant, s).value.args;
      && ParseSignature(constant, s).value.name == f.name
      && (f.group.Modes? ==> |args| == 1 + CountCuts(f.group.seps))
      && (!f.group.Modes? ==> args == [])
      && (forall k :: 0 <= k < |args| ==> args[k] != [])
  {
    var f := Recognise(s).value;
    RenderRecognise(s, f);
    if f.group.Modes? {
      SplitModes(f.group.first, f.group.seps);
      GroupPiecesCount([f.group.first], f.group.seps);
      GroupPiecesNonEmpty([f.group.first], f.group.seps);
    }
  }

  /** Every argument piece of an accepted signature is non-empty. */
  lemma ParsedPiecesNonEmpty(constant: string, s: string)
    requires ParseSignature(constant, s).Ok?
    ensures var args := ParseSignature(constant, s).value.args;
      forall k :: 0 <= k < |args| ==> args[k] != []
  {
    ParsedArgs(constant, s);
  }

  /** An accepted procedure name holds only name characters, so no `?`. */
  lemma ParsedNameChars(constant: string, s: string)
    requires ParseSignature(constant, s).Ok?
    ensures var name := ParseSignature(constant, s).value.name;
      |name| >= 1 && IsNameStart(name[0]) && AllNameChars(name[1..])
      && forall i :: 0 <= i < |name| ==> name[i] != '?'
  {
    var f := Recognise(s).value;
    RenderRecognise(s, f);
    var name := f.name;
    forall i | 0 <= i < |name| ensures name[i] != '?' {
      if i > 0 { assert name[i] == name[1..][i - 1]; }
    }
  }

  /** With every separator written as a comma and exactly one whitespace character, the
      argument pieces are the mode characters of the signature, one each and in order. */
  lemma SingleSpacedArgs(constant: string, name: string, first: char, seps: seq<Sep>)
    requires WellFormed(SigForm(name, Modes(first, seps))) && SingleSpaced(seps)
    ensures ParseSignature(constant, Render(SigForm(name, Modes(first, seps))))
         == Ok(ParsedSignature(name, [[first]] + seq(|seps|, k requires 0 <= k < |seps| => [seps[k].mode])))
  {
    RecogniseRender(SigForm(name, Modes(first, seps)));
    SplitModes(first, seps);
    GroupPiecesSingleSpaced([first], seps);
  }

  /** `P(>,>)` is accepted by the pattern but the split does not cut at a bare comma: one
      argument piece, `>,>`. */
  lemma BareCommaIsOnePiece(constant: string, name: string)
    requires IsName(name)
    ensures ParseSignature(constant, name + "(>,>)") == Ok(ParsedSignature(name, [">,>"]))
  {
    var seps := [Sep("", '>')];
    var f := SigForm(name, Modes('>', seps));
    OneSepText(name, "", '>');
    assert name + "(>," + "" + ['>'] + ")" == name + "(>,>)";
    ModesFormArgs(constant, f);
    BareCommaPieces(seps);
  }

  /** The text of a form with one separator after a `>`. */
  lemma OneSepText(name: string, ws: string, m: char)
    ensures Render(SigForm(name, Modes('>', [Sep(ws, m)]))) == name + "(>," + ws + [m] + ")"
  {
    assert SepsText([Sep(ws, m)]) == [','] + ws + [m];
  }

  /** A bare comma does not cut the group. */
  lemma BareCommaPieces(seps: seq<Sep>)
    requires seps == [Sep("", '>')]
    ensures GroupPieces(['>'], seps) == [">,>"]
  {
    assert seps[1..] == [];
    assert ['>'] + [',', '>'] == ">,>";
    assert GroupPieces(['>'], seps) == GroupPieces(">,>", []);
  }

  /** A well-formed signature with a mode group yields the pieces of that group. */
  lemma ModesFormArgs(constant: string, f: SigForm)
    requires WellFormed(f) && f.group.Modes?
    ensures ParseSignature(constant, Render(f)) == Ok(ParsedSignature(f.name, GroupPieces([f.group.first], f.group.seps)))
  {
    RecogniseRender(f);
    SplitModes(f.group.first, f.group.seps);
  }

  /** The documented example `RAISE_PRICE(>, >, =)`, for any name: two IN parameters and an
      INOUT one. */
  lemma InInInOutExample(constant: string, name: string)
    requires IsName(name)
    ensures ParseSignature(constant, name + "(>, >, =)") == Ok(ParsedSignature(name, [">", ">", "="]))
  {
    var seps := [Sep(" ", '>'), Sep(" ", '=')];
    InInInOutText(name, seps);
    SingleSpacedArgs(constant, name, '>', seps);
    InInInOutModes(seps);
  }

  /** The one-character pieces of the two-separator form. */
  lemma InInInOutModes(seps: seq<Sep>)
    requires seps == [Sep(" ", '>'), Sep(" ", '=')]
    ensures [['>']] + seq(|seps|, k requires 0 <= k < |seps| => [seps[k].mode]) == [">", ">", "="]
  {
    var ms := seq(|seps|, k requires 0 <= k < |seps| => [seps[k].mode]);
    assert ms[0] == ">" && ms[1] == "=";
  }

  /** The text of the two-separator form with single spaces. */
  lemma InInInOutText(name: string, seps: seq<Sep>)
    requires seps == [Sep(" ", '>'), Sep(" ", '=')]
    ensures Render(SigForm(name, Modes('>', seps))) == name + "(>, >, =)"
  {
    assert SepsText(seps[1..]) == ", =";
    assert SepsText(seps) == ", >, =";
  }

  /** `P()` has group 2 null, so it declares no arguments. */
  lemma EmptyGroupHasNoArgs(constant: string, name: string)
    requires IsName(name)
    ensures ParseSignature(constant, name + "()") == Ok(ParsedSignature(name, []))
  {
    var f := SigForm(name, EmptyGroup);
    assert Render(f) == name + "()";
    RecogniseRender(f);
  }

  /** With one whitespace character after every comma, every argument starts with a
      character that names a parameter mode. */
  lemma SingleSpacedModes(constant: string, name: string, first: char, seps: seq<Sep>, args: seq<string>)
    requires WellFormed(SigForm(name, Modes(first, seps))) && SingleSpaced(seps)
    requires ParseSignature(constant, Render(SigForm(name, Modes(first, seps)))) == Ok(ParsedSignature(name, args))
    ensures forall k :: 0 <= k < |args| ==> |args[k]| == 1 && ModeOf(args[k][0]).Some?
  {
    SingleSpacedArgs(constant, name, first, seps);
    ModeCharPieces(first, seps);
  }

  /** The one-character pieces of a single-spaced group are its mode characters. */
  lemma ModeCharPieces(first: char, seps: seq<Sep>)
    requires IsModeChar(first) && SepsWellFormed(seps)
    ensures var ps := [[first]] + seq(|seps|, k requires 0 <= k < |seps| => [seps[k].mode]);
      forall k :: 0 <= k < |ps| ==> |ps[k]| == 1 && ModeOf(ps[k][0]).Some?
  {
    var ms := seq(|seps|, k requires 0 <= k < |seps| => [seps[k].mode]);
    var ps := [[first]] + ms;
    forall k | 0 <= k < |ps| ensures |ps[k]| == 1 && ModeOf(ps[k][0]).Some? {
      if k > 0 {
        assert ps[k] == ms[k - 1] == [seps[k - 1].mode];
        assert IsModeChar(seps[k - 1].mode);
      }
    }
  }

  /** Two whitespace characters after a comma are accepted by the pattern, but the split
      consumes only one: `NAME(>,  >)` yields `>` and ` >`, and the second argument starts
      with a blank, which names no mode. */
  lemma WideSeparatorBlankMode(constant: string, name: string)
    requires IsName(name)
    ensures ParseSignature(constant, name + "(>,  >)") == Ok(ParsedSignature(name, [">", " >"]))
    ensures ModeOf(" >"[0]).None?
  {
    var seps := [Sep("  ", '>')];
    var f := SigForm(name, Modes('>', seps));
    OneSepText(name, "  ", '>');
    assert name + "(>," + "  " + ['>'] + ")" == name + "(>,  >)";
    ModesFormArgs(constant, f);
    WideSeparatorPieces(seps);
  }

  /** The split cuts after the comma and the first blank, leaving the second blank in the
      next piece. */
  lemma WideSeparatorPieces(seps: seq<Sep>)
    requires seps == [Sep("  ", '>')]
    ensures GroupPieces(['>'], seps) == [">", " >"]
  {
    assert seps[1..] == [];
    assert seps[0].ws[1..] + [seps[0].mode] == " >";
    assert GroupPieces(['>'], seps) == [">"] + GroupPieces(" >", []);
  }
}
