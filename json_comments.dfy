/**
 * Removal of line comments and block comments from JSON-with-comments text before
 * parsing (`strip_json_comments`, opencode_config.rs). The scanner tracks
 * whether it is inside a double-quoted string and whether the previous
 * character was a backslash inside one; comment markers inside strings are
 * ordinary text.
 */
module JsonComments {

  /** Where the scanner stands: the two flags of the source plus the two comment states its inner loops run in. */
  datatype Mode = Code | InString | Escaped | LineComment | BlockComment(afterStar: bool)

  /** The scanner's output for the rest of the input `s`, starting in mode `m`. */
  function Strip(s: string, m: Mode): string
    decreases |s|
  {
    if s == [] then []
    else match m
      case Escaped => [s[0]] + Strip(s[1..], InString)
      case InString =>
        [s[0]] + Strip(s[1..], if s[0] == '\\' then Escaped else if s[0] == '"' then Code else InString)
      case Code =>
        if s[0] == '"' then [s[0]] + Strip(s[1..], InString)
        else if s[0] == '/' && |s| > 1 && s[1] == '/' then Strip(s[2..], LineComment)
        else if s[0] == '/' && |s| > 1 && s[1] == '*' then Strip(s[2..], BlockComment(false))
        else [s[0]] + Strip(s[1..], Code)
      case LineComment =>
        if s[0] == '\n' then ['\n'] + Strip(s[1..], Code) else Strip(s[1..], LineComment)
      case BlockComment(star) =>
        if star && s[0] == '/' then Strip(s[1..], Code) else Strip(s[1..], BlockComment(s[0] == '*'))
  }

  function ModeOf(inString: bool, escapeNext: bool): Mode {
    if escapeNext then Escaped else if inString then InString else Code
  }

  /** The character scan of the source, with its two flags; the comment-skipping inner loops are the two methods below. */
  method StripJsonComments(content: string) returns (result: string)
    ensures result == Strip(content, Code)
  {
    result := [];
    var inString := false;
    var escapeNext := false;
    var i := 0;
    while i < |content|
      invariant 0 <= i <= |content|
      invariant escapeNext ==> inString
      invariant result + Strip(content[i..], ModeOf(inString, escapeNext)) == Strip(content, Code)
    {
      var ch := content[i];
      ghost var s := content[i..];
      ghost var before := result;
      assert s[1..] == content[i + 1..];
      i := i + 1;
      if escapeNext {
        assert Strip(s, Escaped) == [ch] + Strip(content[i..], InString);
        Emitted(before, [ch], Strip(content[i..], InString));
        result := result + [ch];
        escapeNext := false;
      } else if ch == '\\' && inString {
        assert Strip(s, InString) == [ch] + Strip(content[i..], Escaped);
        Emitted(before, [ch], Strip(content[i..], Escaped));
        result := result + [ch];
        escapeNext := true;
      } else if ch == '"' {
        assert Strip(s, ModeOf(inString, false)) == [ch] + Strip(content[i..], ModeOf(!inString, false));
        Emitted(before, [ch], Strip(content[i..], ModeOf(!inString, false)));
        inString := !inString;
        result := result + [ch];
      } else if !inString && ch == '/' && i < |content| && content[i] == '/' {
        assert s[2..] == content[i + 1..];
        assert Strip(s, Code) == Strip(content[i + 1..], LineComment);
        var nl;
        i, nl := SkipLineComment(content, i + 1);
        if nl {
          Emitted(before, ['\n'], Strip(content[i..], Code));
          result := result + ['\n'];
        }
      } else if !inString && ch == '/' && i < |content| && content[i] == '*' {
        assert s[2..] == content[i + 1..];
        assert Strip(s, Code) == Strip(content[i + 1..], BlockComment(false));
        i := SkipBlockComment(content, i + 1);
      } else {
        assert Strip(s, ModeOf(inString, false)) == [ch] + Strip(content[i..], ModeOf(inString, false));
        Emitted(before, [ch], Strip(content[i..], ModeOf(inString, false)));
        result := result + [ch];
      }
    }
  }

  /** Emitting `out` before the rest of the output. */
  lemma Emitted(before: string, out: string, rest: string)
    ensures before + (out + rest) == (before + out) + rest
  {
  }

  /** Skips a line comment from `start`: up to and including the next newline, which is reported. */
  method SkipLineComment(content: string, start: nat) returns (next: nat, newline: bool)
    requires start <= |content|
    ensures start <= next <= |content|
    ensures Strip(content[start..], LineComment) == (if newline then "\n" else "") + Strip(content[next..], Code)
  {
    next := start;
    newline := false;
    while next < |content|
      invariant start <= next <= |content|
      invariant Strip(content[start..], LineComment) == Strip(content[next..], LineComment)
    {
      var c := content[next];
      assert content[next..][1..] == content[next + 1..];
      next := next + 1;
      if c == '\n' {
        newline := true;
        return;
      }
    }
  }

  /** Skips a block comment whose opening marker ends just before `start`: up to and including the closing marker. */
  method SkipBlockComment(content: string, start: nat) returns (next: nat)
    requires start <= |content|
    ensures start <= next <= |content|
    ensures Strip(content[start..], BlockComment(false)) == Strip(content[next..], Code)
  {
    next := start;
    var prev := ' ';
    while next < |content|
      invariant start <= next <= |content|
      invariant Strip(content[start..], BlockComment(false)) == Strip(content[next..], BlockComment(prev == '*'))
    {
      var c := content[next];
      assert content[next..][1..] == content[next + 1..];
      next := next + 1;
      if prev == '*' && c == '/' {
        return;
      }
      prev := c;
    }
  }

  /** The text of a string literal up to its closing quote: no bare quote, every backslash followed by the character it escapes. */
  predicate StringBody(b: string)
    decreases |b|
  {
    b == [] ||
    (b[0] == '\\' && |b| >= 2 && StringBody(b[2..])) ||
    (b[0] != '\\' && b[0] != '"' && StringBody(b[1..]))
  }

  /** Inside a string, everything up to the closing quote is copied verbatim, comment markers and escapes included. */
  lemma {:induction false} StringCopiedVerbatim(body: string, rest: string)
    requires StringBody(body)
    ensures Strip(body + "\"" + rest, InString) == body + "\"" + Strip(rest, Code)
    decreases |body|
  {
    var s := body + "\"" + rest;
    if body == [] {
      assert s[1..] == rest;
    } else if body[0] == '\\' && |body| >= 2 && StringBody(body[2..]) {
      var t := s[1..];
      assert t == body[1..] + "\"" + rest;
      assert t[1..] == body[2..] + "\"" + rest;
      assert Strip(s, InString) == [s[0]] + Strip(t, Escaped);
      assert Strip(t, Escaped) == [t[0]] + Strip(t[1..], InString);
      StringCopiedVerbatim(body[2..], rest);
      assert body == [body[0], body[1]] + body[2..];
    } else {
      var t := s[1..];
      assert t == body[1..] + "\"" + rest;
      assert Strip(s, InString) == [s[0]] + Strip(t, InString);
      StringCopiedVerbatim(body[1..], rest);
      assert body == [body[0]] + body[1..];
    }
  }

  /** A complete string literal in code is copied verbatim. */
  lemma StringLiteralKept(body: string, rest: string)
    requires StringBody(body)
    ensures Strip("\"" + body + "\"" + rest, Code) == "\"" + body + "\"" + Strip(rest, Code)
  {
    var s := "\"" + body + "\"" + rest;
    assert s[1..] == body + "\"" + rest;
    StringCopiedVerbatim(body, rest);
  }

  lemma {:induction false} LineCommentSkipped(c: string, rest: string)
    requires '\n' !in c
    ensures Strip(c + "\n" + rest, LineComment) == "\n" + Strip(rest, Code)
    decreases |c|
  {
    var s := c + "\n" + rest;
    if c == [] {
      assert s[1..] == rest;
    } else {
      LineCommentSkipped(c[1..], rest);
      assert s[1..] == c[1..] + "\n" + rest;
    }
  }

  /** A `//` comment in code is dropped, but the newline that ends it is kept. */
  lemma LineCommentDropped(c: string, rest: string)
    requires '\n' !in c
    ensures Strip("//" + c + "\n" + rest, Code) == "\n" + Strip(rest, Code)
  {
    var s := "//" + c + "\n" + rest;
    assert s[2..] == c + "\n" + rest;
    LineCommentSkipped(c, rest);
  }

  /** An unterminated `//` comment swallows the rest of the input. */
  lemma {:induction false} UnterminatedLineComment(c: string)
    requires '\n' !in c
    ensures Strip(c, LineComment) == []
    decreases |c|
  {
    if c != [] {
      UnterminatedLineComment(c[1..]);
    }
  }

  // `c` holds no block-comment terminator (a star followed by a slash).
  predicate NoBlockEnd(c: string) {
    forall i :: 0 <= i < |c| - 1 ==> !(c[i] == '*' && c[i + 1] == '/')
  }

  lemma {:induction false} BlockCommentSkipped(c: string, rest: string, star: bool)
    requires NoBlockEnd(c)
    requires star ==> c == [] || c[0] != '/'
    ensures Strip(c + "*/" + rest, BlockComment(star)) == Strip(rest, Code)
    decreases |c|
  {
    var s := c + "*/" + rest;
    if c == [] {
      assert s[1..] == "/" + rest;
      assert s[1..][1..] == rest;
    } else {
      assert s[1..] == c[1..] + "*/" + rest;
      assert NoBlockEnd(c[1..]) by {
        forall i | 0 <= i < |c[1..]| - 1 ensures !(c[1..][i] == '*' && c[1..][i + 1] == '/') {
          assert c[1..][i] == c[i + 1] && c[1..][i + 1] == c[i + 2];
        }
      }
      BlockCommentSkipped(c[1..], rest, c[0] == '*');
    }
  }

  // A block comment in code is dropped entirely.
  lemma BlockCommentDropped(c: string, rest: string)
    requires NoBlockEnd(c)
    ensures Strip("/*" + c + "*/" + rest, Code) == Strip(rest, Code)
  {
    var s := "/*" + c + "*/" + rest;
    assert s[2..] == c + "*/" + rest;
    BlockCommentSkipped(c, rest, false);
  }

  /** No `/` is followed by `/` or `*` anywhere in `s`. */
  predicate NoCommentMarkers(s: string) {
    forall i :: 0 <= i < |s| - 1 ==> !(s[i] == '/' && (s[i + 1] == '/' || s[i + 1] == '*'))
  }

  /** Text without comment markers passes through unchanged, whether it starts in code or in a string. */
  lemma {:induction false} NoCommentsUnchanged(s: string, m: Mode)
    requires NoCommentMarkers(s)
    requires m == Code || m == InString || m == Escaped
    ensures Strip(s, m) == s
    decreases |s|
  {
    if s != [] {
      assert NoCommentMarkers(s[1..]) by {
        forall i | 0 <= i < |s[1..]| - 1
          ensures !(s[1..][i] == '/' && (s[1..][i + 1] == '/' || s[1..][i + 1] == '*'))
        {
          assert s[1..][i] == s[i + 1] && s[1..][i + 1] == s[i + 2];
        }
      }
      var m' :=
        if m == Escaped then InString
        else if m == InString then (if s[0] == '\\' then Escaped else if s[0] == '"' then Code else InString)
        else if s[0] == '"' then InString else Code;
      NoCommentsUnchanged(s[1..], m');
      assert s == [s[0]] + s[1..];
    }
  }

  /** Stripping never lengthens the text. */
  lemma {:induction false} StripNoLonger(s: string, m: Mode)
    ensures |Strip(s, m)| <= |s|
    decreases |s|
  {
    if s != [] {
      StripNoLonger(s[1..], InString);
      StripNoLonger(s[1..], Code);
      StripNoLonger(s[1..], Escaped);
      StripNoLonger(s[1..], LineComment);
      StripNoLonger(s[1..], BlockComment(s[0] == '*'));
      if |s| > 1 {
        StripNoLonger(s[2..], LineComment);
        StripNoLonger(s[2..], BlockComment(false));
      }
    }
  }
}
