/**
 * The source-text side of `TestCodeValidator`: locating a test method in a Java file and
 * checking that its body calls each required keyword.
 *
 * `fetchBody` reads the file line by line and captures lines from the first line (at or
 * after the signature) that opens a brace, up to the line where the running brace count
 * returns to zero. `MethodBody` states that declaratively over the lines, and `FetchBody`
 * walks the lines as the source does and is proved to compute it.
 */
module SourceScan {

  // ---------------------------------------------------------------------------
  // Text primitives
  // ---------------------------------------------------------------------------

  /** `t` occurs in `s` starting at index `i`. */
  predicate Occurs(t: string, s: string, i: int) {
    0 <= i && i + |t| <= |s| && s[i..i + |t|] == t
  }

  /** `String.contains`. */
  predicate Contains(s: string, t: string) {
    exists i :: 0 <= i <= |s| && Occurs(t, s, i)
  }

  /** Java's `\s`: space, tab, line feed, vertical tab, form feed, carriage return. */
  predicate IsSpaceChar(c: char) {
    c == ' ' || c == '\t' || c == '\n' || c == '\r' || c as int == 0x0B || c as int == 0x0C
  }

  /** Java's `\w` (ASCII): a letter, a digit or an underscore. */
  predicate IsWordChar(c: char) {
    ('a' <= c <= 'z') || ('A' <= c <= 'Z') || ('0' <= c <= '9') || c == '_'
  }

  /** The characters a regex `.` does not match. */
  predicate IsLineTerminator(c: char) {
    c == '\n' || c == '\r' || c as int == 0x85 || c as int == 0x2028 || c as int == 0x2029
  }

  /** The end of the run of `\s` characters that starts at `p`. */
  function SkipSpaces(s: string, p: nat): (q: nat)
    requires p <= |s|
    ensures p <= q <= |s|
    ensures forall k :: p <= k < q ==> IsSpaceChar(s[k])
    ensures q < |s| ==> !IsSpaceChar(s[q])
    decreases |s| - p
  {
    if p == |s| || !IsSpaceChar(s[p]) then p else SkipSpaces(s, p + 1)
  }

  // ---------------------------------------------------------------------------
  // Reading a file line by line
  // ---------------------------------------------------------------------------

  /** `readLine` ends a line at a line feed or a carriage return. */
  predicate IsLineBreak(c: char) {
    c == '\n' || c == '\r'
  }

  predicate NoLineBreak(line: string) {
    forall k :: 0 <= k < |line| ==> !IsLineBreak(line[k])
  }

  /** The index of the first line break at or after `from`, or `|text|`. */
  function LineEnd(text: string, from: nat): (n: nat)
    requires from <= |text|
    ensures from <= n <= |text|
    ensures n < |text| ==> IsLineBreak(text[n])
    ensures forall k :: from <= k < n ==> !IsLineBreak(text[k])
    decreases |text| - from
  {
    if from == |text| || IsLineBreak(text[from]) then from else LineEnd(text, from + 1)
  }

  /**
   * The lines `BufferedReader.readLine` returns one after the other: each ends at "\n",
   * "\r" or "\r\n", the terminator is dropped, and text after the last terminator is a
   * final line of its own.
   */
  function ReadLines(text: string): (lines: seq<string>)
    ensures |lines| <= |text|
    ensures lines == [] <==> text == []
    decreases |text|
  {
    if text == [] then []
    else
      var n := LineEnd(text, 0);
      var next :=
        if n == |text| then n
        else if text[n] == '\r' && n + 1 < |text| && text[n + 1] == '\n' then n + 2
        else n + 1;
      [text[..n]] + ReadLines(text[next..])
  }

  /** No line `readLine` returns holds a line terminator. */
  lemma {:induction false} ReadLinesDropTerminators(text: string)
    ensures forall i :: 0 <= i < |ReadLines(text)| ==> NoLineBreak(ReadLines(text)[i])
    decreases |text|
  {
    if text != [] {
      var n := LineEnd(text, 0);
      var next :=
        if n == |text| then n
        else if text[n] == '\r' && n + 1 < |text| && text[n + 1] == '\n' then n + 2
        else n + 1;
      ReadLinesDropTerminators(text[next..]);
      assert NoLineBreak(text[..n]);
      assert ReadLines(text) == [text[..n]] + ReadLines(text[next..]);
    }
  }

  /** The captured lines, each followed by "\n", as `append(line).append("\n")` builds them. */
  function Joined(lines: seq<string>): string {
    if lines == [] then "" else Joined(lines[..|lines| - 1]) + lines[|lines| - 1] + "\n"
  }

  lemma {:induction false} JoinedCons(line: string, lines: seq<string>)
    ensures Joined([line] + lines) == line + "\n" + Joined(lines)
    decreases |lines|
  {
    if lines != [] {
      var init := lines[..|lines| - 1];
      JoinedCons(line, init);
      assert ([line] + lines)[..|lines|] == [line] + init;
    }
  }

  /** A line ended by a lone "\n" is followed by the lines of the text after it. */
  lemma ReadLinesStep(text: string)
    requires text != []
    requires LineEnd(text, 0) < |text| && text[LineEnd(text, 0)] == '\n'
    ensures ReadLines(text) == [text[..LineEnd(text, 0)]] + ReadLines(text[LineEnd(text, 0) + 1..])
  {
  }

  /** A line and "\n" put back in front of the joined lines after it restore the text. */
  lemma JoinFirstLine(text: string, n: nat, restLines: seq<string>)
    requires n < |text| && text[n] == '\n'
    requires Joined(restLines) == text[n + 1..]
    ensures Joined([text[..n]] + restLines) == text
  {
    JoinedCons(text[..n], restLines);
    assert text[..n] + "\n" + text[n + 1..] == text by {
      assert text[..n] + "\n" == text[..n + 1];
    }
  }

  /** A text ending in "\n" has a first line ended by a line break. */
  lemma FirstLineEnds(text: string)
    requires text != [] && text[|text| - 1] == '\n'
    ensures LineEnd(text, 0) < |text|
  {
    assert IsLineBreak(text[|text| - 1]);
  }

  /**
   * For a file that uses "\n" line endings and ends with one, the lines `readLine` returns,
   * joined back as `fetchBody` joins them, are the file.
   */
  lemma {:induction false} ReadLinesRoundTrip(text: string)
    requires forall k :: 0 <= k < |text| ==> text[k] != '\r'
    requires text == [] || text[|text| - 1] == '\n'
    ensures Joined(ReadLines(text)) == text
    decreases |text|
  {
    if text != [] {
      FirstLineEnds(text);
      var n := LineEnd(text, 0);
      var rest := text[n + 1..];
      assert forall k :: 0 <= k < |rest| ==> rest[k] == text[n + 1 + k];
      ReadLinesRoundTrip(rest);
      ReadLinesStep(text);
      JoinFirstLine(text, n, ReadLines(rest));
    }
  }

  // ---------------------------------------------------------------------------
  // What fetchBody captures
  // ---------------------------------------------------------------------------

  /** A line that `fetchBody` takes for the method's signature. */
  predicate IsSignature(line: string, methodName: string) {
    || Contains(line, "public CustomResponse " + methodName + "(")
    || Contains(line, "public String " + methodName + "(")
    || Contains(line, "public Response " + methodName + "(")
  }

  /** A line containing "{" counts one up, one containing "}" one down, however many it holds. */
  function Delta(line: string): int {
    (if '{' in line then 1 else 0) - (if '}' in line then 1 else 0)
  }

  /** The brace count after the lines `start .. end - 1`. */
  function Depth(lines: seq<string>, start: nat, end: nat): int
    requires start <= end <= |lines|
    decreases end
  {
    if end == start then 0 else Depth(lines, start, end - 1) + Delta(lines[end - 1])
  }

  /** Line `j` contains "}" and brings the count started at the signature line `s` back to zero. */
  predicate Closes(lines: seq<string>, s: nat, j: nat)
    requires s <= j < |lines|
  {
    '}' in lines[j] && Depth(lines, s, j + 1) == 0
  }

  /** The first signature line at or after `from`; `|lines|` when there is none. */
  function FindSignature(lines: seq<string>, methodName: string, from: nat): (j: nat)
    requires from <= |lines|
    ensures from <= j <= |lines|
    ensures j < |lines| ==> IsSignature(lines[j], methodName)
    ensures forall k :: from <= k < j ==> !IsSignature(lines[k], methodName)
    decreases |lines| - from
  {
    if from == |lines| || IsSignature(lines[from], methodName) then from
    else FindSignature(lines, methodName, from + 1)
  }

  /** The first line at or after `from` containing "{"; `|lines|` when there is none. */
  function FindOpen(lines: seq<string>, from: nat): (j: nat)
    requires from <= |lines|
    ensures from <= j <= |lines|
    ensures j < |lines| ==> '{' in lines[j]
    ensures forall k :: from <= k < j ==> '{' !in lines[k]
    decreases |lines| - from
  {
    if from == |lines| || '{' in lines[from] then from else FindOpen(lines, from + 1)
  }

  /** The first line at or after `from` that closes the method begun at `s`; `|lines|` when none does. */
  function FindClose(lines: seq<string>, s: nat, from: nat): (j: nat)
    requires s <= from <= |lines|
    ensures from <= j <= |lines|
    ensures j < |lines| ==> Closes(lines, s, j)
    ensures forall k :: from <= k < j ==> !Closes(lines, s, k)
    decreases |lines| - from
  {
    if from == |lines| || Closes(lines, s, from) then from else FindClose(lines, s, from + 1)
  }

  /** Before the first opening line the count never rises above zero. */
  lemma {:induction false} DepthBeforeOpen(lines: seq<string>, s: nat, j: nat)
    requires s <= j <= |lines|
    requires j <= FindOpen(lines, s)
    ensures Depth(lines, s, j) <= 0
    decreases j
  {
    if j > s {
      DepthBeforeOpen(lines, s, j - 1);
    }
  }

  /** The closing line is never before the opening line: a "}" met first drives the count below zero. */
  lemma CloseFollowsOpen(lines: seq<string>, s: nat)
    requires s < |lines|
    ensures FindOpen(lines, s) <= FindClose(lines, s, s)
  {
    var o, c := FindOpen(lines, s), FindClose(lines, s, s);
    if c < o {
      DepthBeforeOpen(lines, s, c);
      assert false;
    }
  }

  /**
   * The text `fetchBody(file, methodName)` returns: nothing when no line carries the
   * signature or no line from the signature on opens a brace; otherwise the lines from
   * the first opening line through the closing line, or through the end of the file
   * when the count never returns to zero.
   */
  function MethodBody(lines: seq<string>, methodName: string): (body: string)
    ensures body != "" ==> body[|body| - 1] == '\n'
    ensures body != "" ==> FindSignature(lines, methodName, 0) < |lines|
  {
    var s := FindSignature(lines, methodName, 0);
    if s == |lines| then ""
    else
      var o := FindOpen(lines, s);
      if o == |lines| then ""
      else
        var c := FindClose(lines, s, s);
        CloseFollowsOpen(lines, s);
        Joined(lines[o..if c < |lines| then c + 1 else |lines|])
  }

  /** Capturing line `i` after the lines `o .. i - 1` appends it and a newline. */
  lemma CaptureLine(lines: seq<string>, o: nat, i: nat)
    requires o <= i < |lines|
    ensures Joined(lines[o..i + 1]) == Joined(lines[o..i]) + lines[i] + "\n"
  {
    assert lines[o..i + 1][..i - o] == lines[o..i];
  }

  /** The scan stops at the closing line `c`: the captured body runs from the opening line through `c`. */
  lemma ClosedAt(lines: seq<string>, methodName: string, c: nat)
    requires FindSignature(lines, methodName, 0) <= c < |lines|
    requires FindClose(lines, FindSignature(lines, methodName, 0), FindSignature(lines, methodName, 0)) == c
    ensures var o := FindOpen(lines, FindSignature(lines, methodName, 0));
      o <= c && MethodBody(lines, methodName) == Joined(lines[o..c + 1])
  {
    CloseFollowsOpen(lines, FindSignature(lines, methodName, 0));
  }

  /** The scan runs off the end: the captured body runs from the opening line, if any, to the end. */
  lemma NeverClosed(lines: seq<string>, methodName: string)
    requires FindSignature(lines, methodName, 0) < |lines|
    requires FindClose(lines, FindSignature(lines, methodName, 0), FindSignature(lines, methodName, 0)) == |lines|
    ensures var o := FindOpen(lines, FindSignature(lines, methodName, 0));
      MethodBody(lines, methodName) == if o < |lines| then Joined(lines[o..|lines|]) else ""
  {
  }

  /**
   * One line of the scan after the signature: the running count moves by the line's
   * `Delta`; the method closes at this line exactly when it holds "}" and the count
   * returns to zero; and the first opening line is this one exactly when it holds "{"
   * and no earlier line did.
   */
  lemma ScanStep(lines: seq<string>, methodName: string, i: nat)
    requires FindSignature(lines, methodName, 0) <= i < |lines|
    requires var s := FindSignature(lines, methodName, 0); i <= FindClose(lines, s, s)
    ensures var s := FindSignature(lines, methodName, 0);
      Depth(lines, s, i + 1) == Depth(lines, s, i) + Delta(lines[i])
    ensures var s := FindSignature(lines, methodName, 0);
      FindClose(lines, s, s) == i <==> '}' in lines[i] && Depth(lines, s, i + 1) == 0
    ensures var s := FindSignature(lines, methodName, 0);
      FindOpen(lines, s) == i <==> FindOpen(lines, s) >= i && '{' in lines[i]
  {
    var s := FindSignature(lines, methodName, 0);
    var c := FindClose(lines, s, s);
    if '}' in lines[i] && Depth(lines, s, i + 1) == 0 {
      assert Closes(lines, s, i);
    }
    if c == i {
      assert Closes(lines, s, i);
    }
  }

  /** `fetchBody`: one pass over the lines with the source's flags and running brace count. */
  method FetchBody(lines: seq<string>, methodName: string) returns (methodBody: string)
    ensures methodBody == MethodBody(lines, methodName)
  {
    methodBody := "";
    var methodFound := false;
    var inMethodBody := false;
    var openBracesCount := 0;
    ghost var s := FindSignature(lines, methodName, 0);
    ghost var o := if s < |lines| then FindOpen(lines, s) else |lines|;
    ghost var c := if s < |lines| then FindClose(lines, s, s) else |lines|;
    var i := 0;
    while i < |lines|
      invariant 0 <= i <= |lines|
      invariant methodFound <==> s < i
      invariant !methodFound ==> openBracesCount == 0
      invariant methodFound ==> openBracesCount == Depth(lines, s, i) && i <= c
      invariant inMethodBody <==> o < i
      invariant inMethodBody ==> methodBody == Joined(lines[o..i])
      invariant !inMethodBody ==> methodBody == ""
    {
      var line := lines[i];
      if IsSignature(line, methodName) {
        methodFound := true;
      }
      if methodFound {
        ScanStep(lines, methodName, i);
        if '{' in line {
          inMethodBody := true;
          openBracesCount := openBracesCount + 1;
        }
        if inMethodBody {
          CaptureLine(lines, o, i);
          methodBody := methodBody + line + "\n";
        }
        if '}' in line {
          openBracesCount := openBracesCount - 1;
          if openBracesCount == 0 {
            ClosedAt(lines, methodName, i);
            return;
          }
        }
      }
      i := i + 1;
    }
    if s < |lines| {
      NeverClosed(lines, methodName);
    }
  }

  /** A signature line that both opens and closes a brace is the whole captured body. */
  lemma OneLineMethod(lines: seq<string>, methodName: string)
    requires FindSignature(lines, methodName, 0) < |lines|
    requires var s := FindSignature(lines, methodName, 0); '{' in lines[s] && '}' in lines[s]
    ensures MethodBody(lines, methodName) == lines[FindSignature(lines, methodName, 0)] + "\n"
  {
    var s := FindSignature(lines, methodName, 0);
    assert FindOpen(lines, s) == s;
    assert Depth(lines, s, s + 1) == 0;
    assert FindClose(lines, s, s) == s;
    assert lines[s..s + 1] == [lines[s]];
    assert Joined([lines[s]]) == Joined([]) + lines[s] + "\n";
  }

  // ---------------------------------------------------------------------------
  // The declaration the file must contain
  // ---------------------------------------------------------------------------

  /** No regex `.` stops between `from` and `to`. */
  predicate OnOneLine(text: string, from: nat, to: nat)
    requires from <= to <= |text|
  {
    forall k :: from <= k < to ==> !IsLineTerminator(text[k])
  }

  /** `\)\s*\{[\s\S]*?}` matches with the ")" at `r`, after parameters starting at `q` on one line. */
  predicate ParametersClose(text: string, q: nat, r: nat) {
    && q <= r < |text|
    && text[r] == ')'
    && OnOneLine(text, q, r)
    && var t := SkipSpaces(text, r + 1);
       t < |text| && text[t] == '{' && '}' in text[t + 1..]
  }

  /** `.*?\)\s*\{[\s\S]*?}` matches from `q`: some ")" on the same line is followed by a braced block. */
  predicate ParametersThenBody(text: string, q: nat) {
    exists r :: q <= r < |text| && ParametersClose(text, q, r)
  }

  /** `NAME\s*\(.*?\)\s*\{([\s\S]*?)}` matches at `b`. */
  predicate NameAt(text: string, methodName: string, b: nat) {
    && Occurs(methodName, text, b)
    && var c := SkipSpaces(text, b + |methodName|);
    && c < |text| && text[c] == '('
    && ParametersThenBody(text, c + 1)
  }

  /** `CustomResponse\s+NAME...` matches at `a`. */
  predicate TypeAt(text: string, methodName: string, a: nat) {
    && Occurs("CustomResponse", text, a)
    && var b := SkipSpaces(text, a + |"CustomResponse"|);
    && b > a + |"CustomResponse"|
    && NameAt(text, methodName, b)
  }

  /**
   * `public\s+CustomResponse\s+NAME\s*\(.*?\)\s*\{([\s\S]*?)}` matches at `p`. Runs of
   * `\s` are taken whole: the token after each one does not start with a space.
   */
  predicate DeclarationAt(text: string, methodName: string, p: nat) {
    && Occurs("public", text, p)
    && var a := SkipSpaces(text, p + |"public"|);
    && a > p + |"public"|
    && TypeAt(text, methodName, a)
  }

  /** `methodMatcher.find()`: the declaration pattern matches somewhere in the file. */
  predicate DeclaresMethod(text: string, methodName: string)
    ensures DeclaresMethod(text, methodName) ==>
      Contains(text, "public") && Contains(text, "CustomResponse") && Contains(text, methodName)
  {
    exists p: nat :: p <= |text| && DeclarationAt(text, methodName, p)
  }

  lemma OccursAt(s: string, t: string, i: nat)
    requires i + |t| <= |s|
    requires forall k :: 0 <= k < |t| ==> s[i + k] == t[k]
    ensures Occurs(t, s, i)
  {
    assert s[i..i + |t|] == t;
  }

  /** `NAME\s*\(.*?\)\s*\{[\s\S]*?}` matches at `b` when the name is followed by "(", a ")" on the same line, " {" and a final "}". */
  lemma NameFromParts(text: string, methodName: string, b: nat, r: nat)
    requires b + |methodName| < r && r + 3 < |text|
    requires Occurs(methodName, text, b) && text[b + |methodName|] == '('
    requires OnOneLine(text, b + |methodName| + 1, r)
    requires text[r] == ')' && text[r + 1] == ' ' && text[r + 2] == '{' && text[|text| - 1] == '}'
    ensures NameAt(text, methodName, b)
  {
    var c := b + |methodName|;
    SkipSpacesOver(text, c, 0);
    SkipSpacesOver(text, r + 1, 1);
    assert text[r + 3..][|text| - r - 4] == '}';
    assert ParametersClose(text, c + 1, r);
  }

  /** `CustomResponse\s+` matches at `a` when one space separates it from a matching name. */
  lemma TypeFromParts(text: string, methodName: string, a: nat)
    requires Occurs("CustomResponse", text, a) && a + 15 < |text|
    requires text[a + 14] == ' ' && !IsSpaceChar(text[a + 15])
    requires NameAt(text, methodName, a + 15)
    ensures TypeAt(text, methodName, a)
  {
    SkipSpacesOver(text, a + 14, 1);
  }

  /** The declaration pattern matches at `p` when "public" and one space stand before a matching type. */
  lemma DeclarationFromParts(text: string, methodName: string, p: nat)
    requires Occurs("public", text, p) && p + 7 < |text|
    requires text[p + 6] == ' ' && !IsSpaceChar(text[p + 7])
    requires TypeAt(text, methodName, p + 7)
    ensures DeclarationAt(text, methodName, p)
  {
    SkipSpacesOver(text, p + 6, 1);
  }

  /** What stands where in `before + "public CustomResponse " + NAME`. */
  lemma HeadLayout(head: string, before: string, methodName: string)
    requires head == before + "public CustomResponse " + methodName && |methodName| > 0
    ensures |head| == |before| + 22 + |methodName|
    ensures Occurs("public", head, |before|) && head[|before| + 6] == ' '
    ensures Occurs("CustomResponse", head, |before| + 7) && head[|before| + 7] == 'C' && head[|before| + 21] == ' '
    ensures Occurs(methodName, head, |before| + 22) && head[|before| + 22] == methodName[0]
  {
    var p := |before|;
    assert forall k :: 0 <= k < 6 ==> head[p + k] == "public"[k];
    OccursAt(head, "public", p);
    assert forall k :: 0 <= k < 14 ==> head[p + 7 + k] == "CustomResponse"[k];
    OccursAt(head, "CustomResponse", p + 7);
    assert head[p + 22..] == methodName;
  }

  /** What stands where in `"(" + PARAMS + ") {" + BODY + "}"`. */
  lemma TailLayout(tail: string, params: string, body: string)
    requires tail == "(" + params + ") {" + body + "}"
    requires forall k :: 0 <= k < |params| ==> !IsLineTerminator(params[k])
    ensures |tail| == |params| + |body| + 5 && tail[0] == '('
    ensures OnOneLine(tail, 1, |params| + 1)
    ensures tail[|params| + 1] == ')' && tail[|params| + 2] == ' ' && tail[|params| + 3] == '{'
    ensures tail[|tail| - 1] == '}'
  {
    assert forall k :: 1 <= k < |params| + 1 ==> tail[k] == params[k - 1];
  }

  /** A text found in a prefix is found at the same place in the whole. */
  lemma OccursInPrefix(t: string, head: string, tail: string, i: nat)
    requires Occurs(t, head, i)
    ensures Occurs(t, head + tail, i)
  {
    assert (head + tail)[i..i + |t|] == head[i..i + |t|];
  }

  /** The name part of the pattern matches where a head ending in the name meets a parameter-and-body tail. */
  lemma NameInParts(head: string, tail: string, methodName: string, b: nat, n: nat)
    requires |head| == b + |methodName| && Occurs(methodName, head, b)
    requires |tail| >= n + 5 && tail[0] == '(' && OnOneLine(tail, 1, n + 1)
    requires tail[n + 1] == ')' && tail[n + 2] == ' ' && tail[n + 3] == '{' && tail[|tail| - 1] == '}'
    ensures NameAt(head + tail, methodName, b)
  {
    var text := head + tail;
    var c := |head|;
    var r := c + 1 + n;
    OccursInPrefix(methodName, head, tail, b);
    assert OnOneLine(text, c + 1, r) by {
      assert forall k :: c + 1 <= k < r ==> text[k] == tail[k - c];
    }
    assert text[c] == '(' && text[r] == ')' && text[r + 1] == ' ' && text[r + 2] == '{';
    assert text[|text| - 1] == '}';
    NameFromParts(text, methodName, b, r);
  }

  /** The type part of the pattern matches at `a` in a head, before a matching name. */
  lemma TypeInParts(head: string, tail: string, methodName: string, a: nat)
    requires Occurs("CustomResponse", head, a) && a + 15 < |head|
    requires head[a + 14] == ' ' && !IsSpaceChar(head[a + 15])
    requires NameAt(head + tail, methodName, a + 15)
    ensures TypeAt(head + tail, methodName, a)
  {
    OccursInPrefix("CustomResponse", head, tail, a);
    TypeFromParts(head + tail, methodName, a);
  }

  /** The whole pattern matches at `p` in a head, before a matching type. */
  lemma PublicInParts(head: string, tail: string, methodName: string, p: nat)
    requires Occurs("public", head, p) && p + 7 < |head|
    requires head[p + 6] == ' ' && !IsSpaceChar(head[p + 7])
    requires TypeAt(head + tail, methodName, p + 7)
    ensures DeclarationAt(head + tail, methodName, p)
  {
    OccursInPrefix("public", head, tail, p);
    DeclarationFromParts(head + tail, methodName, p);
  }

  /** The pattern matches a text made of a declaration head at `p` and a parameter-and-body tail. */
  lemma DeclarationInParts(head: string, tail: string, methodName: string, p: nat, n: nat)
    requires |methodName| > 0 && !IsSpaceChar(methodName[0])
    requires |head| == p + 22 + |methodName|
    requires Occurs("public", head, p) && head[p + 6] == ' '
    requires Occurs("CustomResponse", head, p + 7) && head[p + 7] == 'C' && head[p + 21] == ' '
    requires Occurs(methodName, head, p + 22) && head[p + 22] == methodName[0]
    requires |tail| >= n + 5 && tail[0] == '(' && OnOneLine(tail, 1, n + 1)
    requires tail[n + 1] == ')' && tail[n + 2] == ' ' && tail[n + 3] == '{' && tail[|tail| - 1] == '}'
    ensures DeclaresMethod(head + tail, methodName)
  {
    NameInParts(head, tail, methodName, p + 22, n);
    TypeInParts(head, tail, methodName, p + 7);
    PublicInParts(head, tail, methodName, p);
  }

  /**
   * A declaration written `public CustomResponse NAME(PARAMS) {BODY}` at the end of a file is
   * found, provided the parameters stay on one line and the name does not start with a space.
   */
  lemma DeclarationFound(before: string, methodName: string, params: string, body: string)
    requires |methodName| > 0 && !IsSpaceChar(methodName[0])
    requires forall k :: 0 <= k < |params| ==> !IsLineTerminator(params[k])
    ensures DeclaresMethod(before + "public CustomResponse " + methodName + ("(" + params + ") {" + body + "}"),
                           methodName)
  {
    var head := before + "public CustomResponse " + methodName;
    var tail := "(" + params + ") {" + body + "}";
    HeadLayout(head, before, methodName);
    TailLayout(tail, params, body);
    DeclarationInParts(head, tail, methodName, |before|, |params|);
  }

  // ---------------------------------------------------------------------------
  // Keyword calls
  // ---------------------------------------------------------------------------

  predicate WordAt(s: string, p: int) {
    0 <= p < |s| && IsWordChar(s[p])
  }

  /** `\b` at `p`: exactly one of the characters either side of `p` is a word character. */
  predicate WordBoundary(s: string, p: int) {
    WordAt(s, p - 1) != WordAt(s, p)
  }

  /** `\bKEYWORD\s*\(` matches at `p`. */
  predicate KeywordCallAt(s: string, keyword: string, p: nat) {
    && Occurs(keyword, s, p)
    && WordBoundary(s, p)
    && var q := SkipSpaces(s, p + |keyword|);
       q < |s| && s[q] == '('
  }

  /** `keywordPattern.matcher(methodBody).find()`. */
  predicate HasKeywordCall(s: string, keyword: string)
    ensures HasKeywordCall(s, keyword) ==> Contains(s, keyword) && '(' in s
  {
    exists p: nat :: p <= |s| && KeywordCallAt(s, keyword, p)
  }

  /**
   * `validateTestMethodFromFile`: false when the declaration pattern finds no method;
   * otherwise true exactly when the body `fetchBody` captures calls every keyword.
   */
  method ValidateTestMethodFromFile(fileContent: string, methodName: string, keywords: seq<string>)
    returns (allKeywordsPresent: bool)
    ensures allKeywordsPresent <==>
      && DeclaresMethod(fileContent, methodName)
      && forall keyword :: keyword in keywords ==>
           HasKeywordCall(MethodBody(ReadLines(fileContent), methodName), keyword)
  {
    if !DeclaresMethod(fileContent, methodName) {
      return false;
    }
    var methodBody := FetchBody(ReadLines(fileContent), methodName);
    allKeywordsPresent := true;
    for k := 0 to |keywords|
      invariant allKeywordsPresent <==> forall keyword :: keyword in keywords[..k] ==> HasKeywordCall(methodBody, keyword)
    {
      assert keywords[..k + 1] == keywords[..k] + [keywords[k]];
      if !HasKeywordCall(methodBody, keywords[k]) {
        allKeywordsPresent := false;
      }
    }
    assert keywords[..|keywords|] == keywords;
  }

  /**
   * A call written as the keyword, optional spaces and "(", at the start of the text or
   * after a non-word character, is found, provided the keyword starts with a word character.
   */
  lemma CallIsFound(before: string, keyword: string, spaces: string, after: string)
    requires before == [] || !IsWordChar(before[|before| - 1])
    requires |keyword| > 0 && IsWordChar(keyword[0])
    requires forall k :: 0 <= k < |spaces| ==> IsSpaceChar(spaces[k])
    ensures HasKeywordCall(before + keyword + spaces + "(" + after, keyword)
  {
    var s := before + keyword + spaces + "(" + after;
    var p := |before|;
    assert s[p..p + |keyword|] == keyword;
    assert s[p] == keyword[0];
    SkipSpacesOver(s, p + |keyword|, |spaces|);
    assert KeywordCallAt(s, keyword, p);
  }

  lemma {:induction false} SkipSpacesOver(s: string, p: nat, n: nat)
    requires p + n < |s|
    requires forall k :: p <= k < p + n ==> IsSpaceChar(s[k])
    requires !IsSpaceChar(s[p + n])
    ensures SkipSpaces(s, p) == p + n
    decreases n
  {
    if n > 0 {
      SkipSpacesOver(s, p + 1, n - 1);
    }
  }

  /** A keyword inside a longer identifier is not a call to it: "forgiven()" does not call `given`. */
  lemma KeywordInsideWordIsNotFound()
    ensures !HasKeywordCall("forgiven()", "given")
  {
    var s := "forgiven()";
    forall p: nat | p <= |s| ensures !KeywordCallAt(s, "given", p) {
      if p == 3 {
        assert WordAt(s, 2) && WordAt(s, 3);
      } else if p <= 5 {
        assert s[p] != 'g';
      }
    }
  }

  /** A name that no line carries in one of the three signature forms yields an empty body, which calls nothing. */
  lemma MissingSignatureCallsNothing(lines: seq<string>, methodName: string, keyword: string)
    requires forall i :: 0 <= i < |lines| ==> !IsSignature(lines[i], methodName)
    ensures MethodBody(lines, methodName) == ""
    ensures !HasKeywordCall(MethodBody(lines, methodName), keyword)
  {
    assert FindSignature(lines, methodName, 0) == |lines|;
  }
}
