/** The string operations of Go's strings and strconv packages that the line
    protocol is built on, and how escaping and scanning interact. */
module Text {
  import opened Bytes
  import opened Results

  // ----- strings.ReplaceAll -----

  /** Leftmost matches that do not overlap. */
  function ReplaceAll(s: string, old_: string, new_: string): string
    requires old_ != ""
    decreases |s|
  {
    if s == "" then ""
    else if old_ <= s then new_ + ReplaceAll(s[|old_|..], old_, new_)
    else [s[0]] + ReplaceAll(s[1..], old_, new_)
  }

  lemma {:induction false} ReplaceHit(s: string, old_: string, new_: string)
    requires old_ != ""
    ensures ReplaceAll(old_ + s, old_, new_) == new_ + ReplaceAll(s, old_, new_)
  {
    assert (old_ + s)[|old_|..] == s;
  }

  lemma {:induction false} ReplaceMiss(c: char, s: string, old_: string, new_: string)
    requires old_ != "" && (c != old_[0] || (|old_| > 1 && (s == "" || s[0] != old_[1])))
    ensures ReplaceAll([c] + s, old_, new_) == [c] + ReplaceAll(s, old_, new_)
  {
    assert ([c] + s)[1..] == s;
    if |old_| > 1 && s != "" {
      assert ([c] + s)[1] == s[0];
    }
  }

  // ----- escaping in one pass, and in one pass for each special character -----

  /** A backslash before each special character. */
  function Escaped(s: string, special: set<char>): string {
    if s == "" then ""
    else (if s[0] in special then ['\\', s[0]] else [s[0]]) + Escaped(s[1..], special)
  }

  lemma {:induction false} EscapedNone(s: string)
    ensures Escaped(s, {}) == s
  {
    if s != "" {
      EscapedNone(s[1..]);
    }
  }

  lemma {:induction false} EscapedHead(s: string, special: set<char>)
    ensures Escaped(s, special) != "" ==> Escaped(s, special)[0] == '\\' || Escaped(s, special)[0] !in special
  {
  }

  /** One more replacement pass escapes one more character. */
  lemma {:induction false} EscapePass(s: string, special: set<char>, c: char)
    requires c !in special && c != '\\'
    ensures ReplaceAll(Escaped(s, special), [c], ['\\', c]) == Escaped(s, special + {c})
    decreases s
  {
    if s != "" {
      hide ReplaceAll;
      var d, rest := s[0], Escaped(s[1..], special);
      EscapePass(s[1..], special, c);
      if d == c {
        ReplaceHit(rest, [c], ['\\', c]);
      } else {
        ReplaceMiss(d, rest, [c], ['\\', c]);
        if d in special {
          ReplaceMiss('\\', [d] + rest, [c], ['\\', c]);
          assert ['\\', d] + rest == ['\\'] + ([d] + rest);
          assert ['\\', d] + ReplaceAll(rest, [c], ['\\', c]) == ['\\'] + ([d] + ReplaceAll(rest, [c], ['\\', c]));
        }
      }
    } else {
      assert Escaped(s, special) == "" && Escaped(s, special + {c}) == "";
    }
  }

  /** One replacement pass takes back the escape of one character, whatever the
      string: also one with backslashes, escaped or not. */
  lemma {:induction false} UnescapePass(s: string, special: set<char>, c: char)
    requires c !in special && c != '\\'
    ensures ReplaceAll(Escaped(s, special + {c}), ['\\', c], [c]) == Escaped(s, special)
    decreases s
  {
    if s != "" {
      hide ReplaceAll;
      var d, rest := s[0], Escaped(s[1..], special + {c});
      UnescapePass(s[1..], special, c);
      EscapedHead(s[1..], special + {c});
      if d == c {
        ReplaceHit(rest, ['\\', c], [c]);
      } else {
        ReplaceMiss(d, rest, ['\\', c], [c]);
        if d in special {
          ReplaceMiss('\\', [d] + rest, ['\\', c], [c]);
          assert ['\\', d] + rest == ['\\'] + ([d] + rest);
          assert ['\\', d] + ReplaceAll(rest, ['\\', c], [c]) == ['\\'] + ([d] + ReplaceAll(rest, ['\\', c], [c]));
        }
      }
    } else {
      assert Escaped(s, special) == "" && Escaped(s, special + {c}) == "";
    }
  }

  lemma {:induction false} DoublePass(s: string)
    ensures ReplaceAll(s, "\\", "\\\\") == Escaped(s, {'\\'})
  {
    if s != "" {
      assert s == [s[0]] + s[1..];
      DoublePass(s[1..]);
      if s[0] == '\\' {
        ReplaceHit(s[1..], "\\", "\\\\");
      } else {
        ReplaceMiss(s[0], s[1..], "\\", "\\\\");
      }
    }
  }

  lemma {:induction false} UndoublePass(s: string)
    ensures ReplaceAll(Escaped(s, {'\\'}), "\\\\", "\\") == s
  {
    if s != "" {
      hide ReplaceAll;
      UndoublePass(s[1..]);
      var rest := Escaped(s[1..], {'\\'});
      if s[0] == '\\' {
        assert ['\\', s[0]] == "\\\\";
        ReplaceHit(rest, "\\\\", "\\");
      } else {
        ReplaceMiss(s[0], rest, "\\\\", "\\");
      }
    } else {
      assert Escaped(s, {'\\'}) == "";
    }
  }

  // ----- scanning for an unescaped, unquoted character -----

  function Later(n: nat, i: int): int {
    if i < 0 then -1 else n + i
  }

  /** The index of the first ch outside quotes and escapes, or -1. */
  function Find(s: string, ch: char, quoted: bool): (r: int)
    ensures -1 <= r < |s|
    ensures r >= 0 ==> s[r] == ch
    decreases |s|
  {
    if s == "" then -1
    else if s[0] == '"' then Later(1, Find(s[1..], ch, !quoted))
    else if s[0] == '\\' && |s| > 1 then Later(2, Find(s[2..], ch, quoted))
    else if !quoted && s[0] == ch then 0
    else Later(1, Find(s[1..], ch, quoted))
  }

  function Split(s: string, sep: char): (parts: seq<string>)
    ensures parts != []
    decreases |s|
  {
    var i := Find(s, sep, false);
    if i < 0 then [s] else [s[..i]] + Split(s[i + 1..], sep)
  }

  /** The scanner passes over s without meeting a separator and comes out
      unquoted, not in the middle of an escape. */
  predicate Closed(s: string, seps: set<char>, quoted: bool)
    decreases |s|
  {
    if s == "" then !quoted
    else if s[0] == '"' then Closed(s[1..], seps, !quoted)
    else if s[0] == '\\' then |s| > 1 && Closed(s[2..], seps, quoted)
    else (quoted || s[0] !in seps) && Closed(s[1..], seps, quoted)
  }

  lemma {:induction false} FindPasses(s: string, rest: string, seps: set<char>, ch: char, quoted: bool)
    requires Closed(s, seps, quoted) && ch in seps
    ensures Find(s + rest, ch, quoted) == Later(|s|, Find(rest, ch, false))
    decreases |s|
  {
    if s == "" {
      assert s + rest == rest;
    } else if s[0] == '"' {
      assert (s + rest)[1..] == s[1..] + rest;
      FindPasses(s[1..], rest, seps, ch, !quoted);
    } else if s[0] == '\\' {
      assert (s + rest)[2..] == s[2..] + rest;
      FindPasses(s[2..], rest, seps, ch, quoted);
    } else {
      assert (s + rest)[1..] == s[1..] + rest;
      FindPasses(s[1..], rest, seps, ch, quoted);
    }
  }

  /** A closed text before a separator is found to end there. */
  lemma {:induction false} FindsSeparator(s: string, rest: string, seps: set<char>, ch: char)
    requires Closed(s, seps, false) && ch in seps && ch != '"' && ch != '\\'
    ensures Find(s + [ch] + rest, ch, false) == |s|
    ensures (s + [ch] + rest)[..|s|] == s && (s + [ch] + rest)[|s| + 1..] == rest
  {
    Assoc(s, [ch], rest);
    FindPasses(s, [ch] + rest, seps, ch, false);
  }

  lemma {:induction false} FindsNothing(s: string, seps: set<char>, ch: char)
    requires Closed(s, seps, false) && ch in seps
    ensures Find(s, ch, false) == -1
  {
    assert s + "" == s;
    FindPasses(s, "", seps, ch, false);
  }

  lemma {:induction false} ClosedConcat(a: string, b: string, seps: set<char>, quoted: bool)
    requires Closed(a, seps, quoted) && Closed(b, seps, false)
    ensures Closed(a + b, seps, quoted)
    decreases |a|
  {
    if a == "" {
      assert a + b == b;
    } else if a[0] == '"' {
      assert (a + b)[1..] == a[1..] + b;
      ClosedConcat(a[1..], b, seps, !quoted);
    } else if a[0] == '\\' {
      assert (a + b)[2..] == a[2..] + b;
      ClosedConcat(a[2..], b, seps, quoted);
    } else {
      assert (a + b)[1..] == a[1..] + b;
      ClosedConcat(a[1..], b, seps, quoted);
    }
  }

  lemma {:induction false} ClosedForFewer(s: string, seps: set<char>, fewer: set<char>, quoted: bool)
    requires Closed(s, seps, quoted) && fewer <= seps
    ensures Closed(s, fewer, quoted)
    decreases |s|
  {
    if s == "" {
    } else if s[0] == '"' {
      ClosedForFewer(s[1..], seps, fewer, !quoted);
    } else if s[0] == '\\' {
      ClosedForFewer(s[2..], seps, fewer, quoted);
    } else {
      ClosedForFewer(s[1..], seps, fewer, quoted);
    }
  }

  // ----- and conversely: what is found to end there is closed -----

  /** A text that ends where the scanner finds a separator is closed for it. */
  lemma {:induction false} FoundClosed(s: string, rest: string, ch: char, quoted: bool)
    requires ch != '"' && ch != '\\' && Find(s + [ch] + rest, ch, quoted) == |s|
    ensures Closed(s, {ch}, quoted)
    decreases |s|
  {
    var all := s + [ch] + rest;
    if s == "" {
      assert all == [ch] + rest;
    } else if s[0] == '"' {
      assert all[1..] == s[1..] + [ch] + rest;
      FoundClosed(s[1..], rest, ch, !quoted);
    } else if s[0] == '\\' {
      if |s| > 1 {
        assert all[2..] == s[2..] + [ch] + rest;
        FoundClosed(s[2..], rest, ch, quoted);
      }
    } else {
      assert all[1..] == s[1..] + [ch] + rest;
      FoundClosed(s[1..], rest, ch, quoted);
    }
  }

  /** So the scanner finds the separator at the end of a text exactly if the text
      is closed for it. */
  lemma {:induction false} FindsExactly(s: string, rest: string, ch: char)
    requires ch != '"' && ch != '\\'
    ensures Find(s + [ch] + rest, ch, false) == |s| <==> Closed(s, {ch}, false)
  {
    if Closed(s, {ch}, false) {
      FindsSeparator(s, rest, {ch}, ch);
    } else if Find(s + [ch] + rest, ch, false) == |s| {
      FoundClosed(s, rest, ch, false);
    }
  }

  /** A closed text in which another separator is not found is closed for that, too. */
  lemma {:induction false} ClosedMore(s: string, rest: string, seps: set<char>, ch: char, quoted: bool)
    requires ch != '"' && ch != '\\' && Closed(s, seps, quoted)
    requires Find(s + rest, ch, quoted) < 0 || Find(s + rest, ch, quoted) >= |s|
    ensures Closed(s, seps + {ch}, quoted)
    decreases |s|
  {
    if s == "" {
    } else if s[0] == '"' {
      assert (s + rest)[1..] == s[1..] + rest;
      ClosedMore(s[1..], rest, seps, ch, !quoted);
    } else if s[0] == '\\' {
      assert (s + rest)[2..] == s[2..] + rest;
      ClosedMore(s[2..], rest, seps, ch, quoted);
    } else {
      assert (s + rest)[1..] == s[1..] + rest;
      ClosedMore(s[1..], rest, seps, ch, quoted);
    }
  }

  /** A closed text that begins with one that is closed for other separators. */
  lemma {:induction false} ClosedSplit(a: string, b: string, others: set<char>, seps: set<char>, quoted: bool)
    requires Closed(a, others, quoted) && Closed(a + b, seps, quoted)
    ensures Closed(a, others + seps, quoted) && Closed(b, seps, false)
    decreases |a|
  {
    if a == "" {
      assert a + b == b;
    } else if a[0] == '"' {
      assert (a + b)[1..] == a[1..] + b;
      ClosedSplit(a[1..], b, others, seps, !quoted);
    } else if a[0] == '\\' {
      assert (a + b)[2..] == a[2..] + b;
      ClosedSplit(a[2..], b, others, seps, quoted);
    } else {
      assert (a + b)[1..] == a[1..] + b;
      ClosedSplit(a[1..], b, others, seps, quoted);
    }
  }

  // ----- what escaping and unescaping leave alone -----

  function NoBackslashes(s: string): string {
    if s == "" then "" else (if s[0] == '\\' then "" else [s[0]]) + NoBackslashes(s[1..])
  }

  lemma {:induction false} NoBackslashesConcat(a: string, b: string)
    ensures NoBackslashes(a + b) == NoBackslashes(a) + NoBackslashes(b)
  {
    if a == "" {
      assert a + b == b;
    } else {
      assert (a + b)[1..] == a[1..] + b;
      NoBackslashesConcat(a[1..], b);
    }
  }

  lemma {:induction false} UnescapeKeeps(s: string, c: char)
    requires c != '\\'
    ensures NoBackslashes(ReplaceAll(s, ['\\', c], [c])) == NoBackslashes(s)
    decreases |s|
  {
    var old_ := ['\\', c];
    if s == "" {
    } else if old_ <= s {
      UnescapeKeeps(s[2..], c);
      assert s == old_ + s[2..];
      NoBackslashesConcat(old_, s[2..]);
      NoBackslashesConcat([c], ReplaceAll(s[2..], old_, [c]));
      assert NoBackslashes(old_) == [c] == NoBackslashes([c]) by {
        assert old_[1..] == [c] && [c][1..] == "";
      }
    } else {
      UnescapeKeeps(s[1..], c);
      NoBackslashesConcat([s[0]], ReplaceAll(s[1..], old_, [c]));
      assert s == [s[0]] + s[1..];
      NoBackslashesConcat([s[0]], s[1..]);
    }
  }

  lemma {:induction false} EscapeKeeps(s: string, special: set<char>)
    requires '\\' !in special
    ensures NoBackslashes(Escaped(s, special)) == NoBackslashes(s)
  {
    if s != "" {
      EscapeKeeps(s[1..], special);
      var first := if s[0] in special then ['\\', s[0]] else [s[0]];
      NoBackslashesConcat(first, Escaped(s[1..], special));
      assert ['\\', s[0]][1..] == [s[0]] && [s[0]][1..] == "";
    }
  }

  lemma {:induction false} EscapedSnoc(s: string, special: set<char>)
    requires s != ""
    ensures var last := s[|s| - 1];
            Escaped(s, special) ==
            Escaped(s[..|s| - 1], special) + if last in special then ['\\', last] else [last]
  {
    if |s| > 1 {
      EscapedSnoc(s[1..], special);
      assert s[..|s| - 1][1..] == s[1..][..|s| - 2];
    } else {
      assert s[1..] == "" && s[..0] == "";
    }
  }

  lemma {:induction false} EscapedNothing(special: set<char>)
    ensures Escaped("", special) == ""
  {
  }

  /** An escaped text without the backslashes it ends in is that of a shorter text. */
  lemma {:induction false} EscapedPeel(s: string, special: set<char>, j: nat)
    requires '\\' !in special && j <= |Escaped(s, special)|
    requires var e := Escaped(s, special); forall i :: |e| - j <= i < |e| ==> e[i] == '\\'
    ensures j <= |s| && var e := Escaped(s, special); e[..|e| - j] == Escaped(s[..|s| - j], special)
    decreases j
  {
    hide Escaped;
    var e := Escaped(s, special);
    if j == 0 {
      assert s[..|s|] == s;
    } else {
      assert e[|e| - 1] == '\\';
      EscapedNothing(special);
      EscapedSnoc(s, special);
      var t := s[..|s| - 1];
      var f := Escaped(t, special);
      assert e == f + ['\\'];
      assert forall i :: |f| - (j - 1) <= i < |f| ==> f[i] == e[i];
      EscapedPeel(t, special, j - 1);
      assert t[..|t| - (j - 1)] == s[..|s| - j];
      assert e[..|e| - j] == f[..|f| - (j - 1)];
    }
  }

  lemma {:induction false} OnlyBackslashes(s: string)
    requires NoBackslashes(s) == ""
    ensures forall i :: 0 <= i < |s| ==> s[i] == '\\'
  {
    if s != "" {
      OnlyBackslashes(s[1..]);
      assert forall i :: 0 < i < |s| ==> s[i] == s[1..][i - 1];
    }
  }

  lemma {:induction false} LongerPiece(e: string, c: char, piece: string)
    requires c != '\\' && e + [c] <= piece
    ensures |NoBackslashes(piece)| > |NoBackslashes(e)|
  {
    var more := piece[|e| + 1..];
    assert piece == e + ([c] + more);
    NoBackslashesConcat(e, [c] + more);
  }

  /** A piece that begins like an escaped text and something behind it, and has the
      same characters but for backslashes, is the escaped text, or that of a
      shorter one. */
  lemma {:induction false} PieceIs(s: string, special: set<char>, c: char, rest: string, piece: string) returns (j: nat)
    requires '\\' !in special && c != '\\' && piece <= Escaped(s, special) + [c] + rest
    requires NoBackslashes(piece) == NoBackslashes(s)
    ensures j <= |s| && piece == Escaped(s[..|s| - j], special)
  {
    var e := Escaped(s, special);
    EscapeKeeps(s, special);
    if |piece| <= |e| {
      var end := e[|piece|..];
      assert e == piece + end;
      NoBackslashesConcat(piece, end);
      assert NoBackslashes(piece) + NoBackslashes(end) == NoBackslashes(piece);
      OnlyBackslashes(end);
      j := |end|;
      assert forall i :: |e| - j <= i < |e| ==> e[i] == end[i - (|e| - j)];
      EscapedPeel(s, special, j);
    } else {
      LongerPiece(e, c, piece);
    }
  }

  predicate Plain(s: string) {
    forall i :: 0 <= i < |s| ==> s[i] != '"' && s[i] != '\\'
  }

  /** Escaping its separators closes any text without quotes and backslashes. */
  lemma {:induction false} EscapedClosed(s: string, seps: set<char>)
    requires Plain(s)
    ensures Closed(Escaped(s, seps), seps, false)
  {
    if s != "" {
      EscapedClosed(s[1..], seps);
      var rest := Escaped(s[1..], seps);
      if s[0] in seps {
        assert (['\\', s[0]] + rest)[2..] == rest;
      } else {
        assert ([s[0]] + rest)[1..] == rest;
      }
    }
  }

  /** A quoted text with its quotes and backslashes escaped is closed, whatever
      it holds. */
  lemma {:induction false} QuotedClosed(s: string, seps: set<char>)
    ensures Closed(Escaped(s, {'\\', '"'}) + "\"", seps, true)
  {
    var special := {'\\', '"'};
    if s == "" {
      assert Escaped(s, special) + "\"" == "\"";
      assert Closed("\""[1..], seps, false);
    } else {
      QuotedClosed(s[1..], seps);
      var rest := Escaped(s[1..], special) + "\"";
      if s[0] in special {
        assert Escaped(s, special) + "\"" == ['\\', s[0]] + rest;
        assert (['\\', s[0]] + rest)[2..] == rest;
      } else {
        assert Escaped(s, special) + "\"" == [s[0]] + rest;
        assert ([s[0]] + rest)[1..] == rest;
      }
    }
  }

  // ----- joining and splitting -----

  function Join(parts: seq<string>, sep: char): string {
    if parts == [] then "" else if |parts| == 1 then parts[0] else parts[0] + [sep] + Join(parts[1..], sep)
  }

  lemma {:induction false} SplitJoin(parts: seq<string>, sep: char)
    requires parts != [] && sep != '"' && sep != '\\'
    requires forall i :: 0 <= i < |parts| ==> Closed(parts[i], {sep}, false)
    ensures Split(Join(parts, sep), sep) == parts
  {
    if |parts| == 1 {
      FindsNothing(parts[0], {sep}, sep);
    } else {
      FindsSeparator(parts[0], Join(parts[1..], sep), {sep}, sep);
      SplitJoin(parts[1..], sep);
    }
  }

  lemma {:induction false} JoinClosed(parts: seq<string>, sep: char, seps: set<char>)
    requires sep !in seps && sep != '"' && sep != '\\'
    requires forall i :: 0 <= i < |parts| ==> Closed(parts[i], seps, false)
    ensures Closed(Join(parts, sep), seps, false)
  {
    if |parts| > 1 {
      JoinClosed(parts[1..], sep, seps);
      OneClosed(sep, seps);
      ClosedConcat(parts[0], [sep], seps, false);
      ClosedConcat(parts[0] + [sep], Join(parts[1..], sep), seps, false);
    }
  }

  lemma {:induction false} JoinOneMore(parts: seq<string>, i: nat, sep: char)
    requires i < |parts|
    ensures Join(parts[..i + 1], sep) == Join(parts[..i], sep) + (if i > 0 then [sep] else "") + parts[i]
  {
    assert parts[..i + 1] == parts[..i] + [parts[i]];
    JoinAppend(parts[..i], parts[i], sep);
  }

  lemma {:induction false} JoinAppend(parts: seq<string>, x: string, sep: char)
    ensures Join(parts + [x], sep) == Join(parts, sep) + (if parts != [] then [sep] else "") + x
  {
    if parts == [] {
      assert parts + [x] == [x];
    } else {
      JoinAppend(parts[1..], x, sep);
      assert (parts + [x])[1..] == parts[1..] + [x];
      if |parts| > 1 {
        assert parts[0] + [sep] + (Join(parts[1..], sep) + [sep] + x) == parts[0] + [sep] + Join(parts[1..],
            sep) + [sep] + x;
      }
    }
  }

  lemma {:induction false} OneClosed(c: char, seps: set<char>)
    requires c !in seps && c != '"' && c != '\\'
    ensures Closed([c], seps, false)
  {
    assert [c][1..] == "";
  }

  // ----- strings.Split and strings.Index -----

  function SplitOn(s: string, sep: char): (parts: seq<string>)
    ensures parts != []
  {
    if s == "" then [""]
    else if s[0] == sep then [""] + SplitOn(s[1..], sep)
    else var rest := SplitOn(s[1..], sep); [[s[0]] + rest[0]] + rest[1..]
  }

  function Lines(s: string): (lines: seq<string>)
    ensures lines != []
  {
    SplitOn(s, '\n')
  }

  lemma {:induction false} FirstPart(part: string, rest: string, sep: char)
    requires sep !in part
    ensures SplitOn(part + [sep] + rest, sep) == [part] + SplitOn(rest, sep)
  {
    var s := part + [sep] + rest;
    if part == "" {
      assert s[0] == sep && s[1..] == rest;
    } else {
      FirstPart(part[1..], rest, sep);
      assert s[0] == part[0] && s[1..] == part[1..] + [sep] + rest;
      assert [part[0]] + part[1..] == part;
      assert SplitOn(s[1..], sep) == [part[1..]] + SplitOn(rest, sep);
    }
  }

  lemma {:induction false} FirstLine(line: string, rest: string)
    requires '\n' !in line
    ensures Lines(line + ['\n'] + rest) == [line] + Lines(rest)
  {
    FirstPart(line, rest, '\n');
  }

  lemma {:induction false} OnlyPart(part: string, sep: char)
    requires sep !in part
    ensures SplitOn(part, sep) == [part]
  {
    if part != "" {
      OnlyPart(part[1..], sep);
      assert [part[0]] + part[1..] == part;
    }
  }

  lemma {:induction false} SplitOnJoin(parts: seq<string>, sep: char)
    requires parts != [] && forall i :: 0 <= i < |parts| ==> sep !in parts[i]
    ensures SplitOn(Join(parts, sep), sep) == parts
  {
    if |parts| == 1 {
      OnlyPart(parts[0], sep);
    } else {
      FirstPart(parts[0], Join(parts[1..], sep), sep);
      SplitOnJoin(parts[1..], sep);
    }
  }

  lemma {:induction false} PartsLackSep(s: string, sep: char)
    ensures forall i :: 0 <= i < |SplitOn(s, sep)| ==> sep !in SplitOn(s, sep)[i]
  {
    if s != "" {
      PartsLackSep(s[1..], sep);
    }
  }

  /** The index of the first c, or -1. */
  function IndexOf(s: string, c: char): (r: int)
    ensures -1 <= r < |s|
    ensures r < 0 ==> c !in s
    ensures r >= 0 ==> s[r] == c && c !in s[..r]
  {
    if s == "" then -1
    else if s[0] == c then 0
    else
      var i := IndexOf(s[1..], c);
      assert i >= 0 ==> s[..i + 1] == [s[0]] + s[1..][..i];
      Later(1, i)
  }

  lemma {:induction false} IndexIs(a: string, c: char, b: string)
    requires c !in a
    ensures IndexOf(a + [c] + b, c) == |a|
  {
    var s := a + [c] + b;
    if a != "" {
      assert s[0] == a[0] && s[1..] == a[1..] + [c] + b;
      IndexIs(a[1..], c, b);
    }
  }

  lemma {:induction false} EscapedOneLine(s: string, special: set<char>)
    requires '\n' !in s && '\n' !in special
    ensures '\n' !in Escaped(s, special)
  {
    if s != "" {
      EscapedOneLine(s[1..], special);
    }
  }

  // ----- white space -----

  predicate IsSpace(c: char) {
    c == ' ' || '\t' <= c <= '\r' || c == '\U{85}' || c == '\U{a0}' || c == '\U{1680}' || '\U{2000}' <= c <= '\U{200a}' ||
    c == '\U{2028}' || c == '\U{2029}' || c == '\U{202f}' || c == '\U{205f}' || c == '\U{3000}'
  }

  function TrimLeft(s: string): (r: string)
    ensures r != "" ==> !IsSpace(r[0])
    ensures s != "" && !IsSpace(s[0]) ==> r == s
  {
    if s != "" && IsSpace(s[0]) then TrimLeft(s[1..]) else s
  }

  function TrimRight(s: string): (r: string)
    ensures r <= s
    ensures r != "" ==> !IsSpace(r[|r| - 1])
    ensures s != "" && !IsSpace(s[|s| - 1]) ==> r == s
  {
    if s != "" && IsSpace(s[|s| - 1]) then TrimRight(s[..|s| - 1]) else s
  }

  function TrimSpace(s: string): (r: string)
    ensures r != "" ==> !IsSpace(r[0]) && !IsSpace(r[|r| - 1])
    ensures s != "" && !IsSpace(s[0]) && !IsSpace(s[|s| - 1]) ==> r == s
  {
    TrimRight(TrimLeft(s))
  }

  predicate Blank(s: string) {
    forall c :: c in s ==> c in " \t\r"
  }

  /** Does not begin or end with white space. */
  predicate Tight(s: string) {
    s == "" || (!IsSpace(s[0]) && !IsSpace(s[|s| - 1]))
  }

  lemma {:induction false} LeftTrimmed(left: string, s: string)
    requires Blank(left)
    ensures TrimLeft(left + s) == TrimLeft(s)
    decreases left
  {
    if left == "" {
      assert left + s == s;
    } else {
      assert left[0] in left;
      forall c | c in left[1..] ensures c in " \t\r" {
        assert c in left;
      }
      assert (left + s)[1..] == left[1..] + s;
      LeftTrimmed(left[1..], s);
    }
  }

  lemma {:induction false} RightTrimmed(s: string, right: string)
    requires Blank(right)
    ensures TrimRight(s + right) == TrimRight(s)
    decreases right
  {
    if right == "" {
      assert s + right == s;
    } else {
      var front := right[..|right| - 1];
      assert right[|right| - 1] in right;
      forall c | c in front ensures c in " \t\r" {
        assert c in right;
      }
      assert (s + right)[..|s + right| - 1] == s + front;
      RightTrimmed(s, front);
    }
  }

  lemma {:induction false} PaddingTrimmed(left: string, s: string, right: string)
    requires Blank(left) && Blank(right) && Tight(s)
    ensures TrimSpace(left + s + right) == s && TrimRight(s + right) == s
  {
    hide TrimRight, TrimLeft;
    RightTrimmed(s, right);
    TrimTight(s);
    if s == "" {
      assert left + s + right == left + right;
      assert s + right == right;
      LeftTrimmed(left, right);
      BlankTrimmed(right);
    } else {
      assert left + s + right == left + (s + right);
      LeftTrimmed(left, s + right);
      assert TrimLeft(s + right) == s + right by { assert (s + right)[0] == s[0]; }
    }
  }

  lemma {:induction false} TrimTight(s: string)
    requires Tight(s)
    ensures TrimRight(s) == s
  {
  }

  lemma {:induction false} BlankTrimmed(s: string)
    requires Blank(s)
    ensures TrimLeft(s) == "" && TrimRight(TrimLeft(s)) == "" && TrimSpace(s) == ""
  {
    assert s + "" == s;
    LeftTrimmed(s, "");
  }

  // ----- decimal numbers -----

  const DIGITS := ['0', '1', '2', '3', '4', '5', '6', '7', '8', '9']

  predicate IsDigit(c: char) {
    '0' <= c <= '9'
  }

  function FormatNat(n: nat): (s: string)
    ensures s != "" && forall i :: 0 <= i < |s| ==> IsDigit(s[i])
  {
    if n < 10 then [DIGITS[n]] else FormatNat(n / 10) + [DIGITS[n % 10]]
  }

  function FormatInt(i: int): string {
    if i < 0 then "-" + FormatNat(-i) else FormatNat(i)
  }

  function DigitValue(c: char): nat
    requires IsDigit(c)
  {
    (c as int) - ('0' as int)
  }

  datatype Option<+T> = Some(value: T) | None

  function ParseNat(s: string): Option<nat> {
    if s == "" || !IsDigit(s[|s| - 1]) then None
    else if |s| == 1 then Some(DigitValue(s[0]))
    else
      match ParseNat(s[..|s| - 1])
      case None => None
      case Some(n) => Some(10 * n + DigitValue(s[|s| - 1]))
  }

  function ParseUint(s: string): Option<uint64> {
    match ParseNat(s)
    case None => None
    case Some(n) => if n < TWO_64 then Some(n) else None
  }

  function ParseInt(s: string): Option<int64> {
    if s == "" then None
    else
      var digits := if s[0] == '-' || s[0] == '+' then s[1..] else s;
      match ParseNat(digits)
      case None => None
      case Some(n) =>
        var i: int := if s[0] == '-' then -(n as int) else n;
        if -TWO_63 <= i < TWO_63 then Some(i) else None
  }

  lemma {:induction false} NatReadsBack(n: nat)
    ensures ParseNat(FormatNat(n)) == Some(n)
  {
    if n >= 10 {
      NatReadsBack(n / 10);
      var s := FormatNat(n);
      assert s[..|s| - 1] == FormatNat(n / 10);
    }
  }

  lemma {:induction false} IntReadsBack(i: int64)
    ensures ParseInt(FormatInt(i)) == Some(i)
  {
    hide FormatNat, ParseNat;
    if i < 0 {
      NatReadsBack(-(i as int));
      assert FormatInt(i)[1..] == FormatNat(-(i as int));
    } else {
      NatReadsBack(i);
      assert IsDigit(FormatNat(i)[0]);
    }
  }
}
