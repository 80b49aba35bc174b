/** Text operations shared by the components: white space, trimming, fields, lines and joining. */
module Text {

  /** The Unicode White_Space property, as Go's unicode.IsSpace and Rust's char::is_whitespace use it. */
  predicate IsSpace(c: char) {
    var n := c as int;
    9 <= n <= 13 || n == 32 || n == 0x85 || n == 0xA0 || n == 0x1680 || 0x2000 <= n <= 0x200A
    || n == 0x2028 || n == 0x2029 || n == 0x202F || n == 0x205F || n == 0x3000
  }

  function TrimLeft(s: string): string {
    if s != [] && IsSpace(s[0]) then TrimLeft(s[1..]) else s
  }

  function TrimRight(s: string): string {
    if s != [] && IsSpace(s[|s| - 1]) then TrimRight(s[..|s| - 1]) else s
  }

  function TrimSpace(s: string): string {
    TrimRight(TrimLeft(s))
  }

  predicate Bare(s: string) {
    s != [] ==> !IsSpace(s[0]) && !IsSpace(s[|s| - 1])
  }

  lemma {:induction false} TrimLeftBares(s: string)
    ensures TrimLeft(s) != [] ==> !IsSpace(TrimLeft(s)[0])
  {
    if s != [] && IsSpace(s[0]) {
      TrimLeftBares(s[1..]);
    }
  }

  lemma {:induction false} TrimRightBares(s: string)
    ensures TrimRight(s) <= s
    ensures TrimRight(s) != [] ==> !IsSpace(TrimRight(s)[|TrimRight(s)| - 1])
  {
    if s != [] && IsSpace(s[|s| - 1]) {
      TrimRightBares(s[..|s| - 1]);
    }
  }

  /** Trimming leaves exactly the strings without surrounding white space as they are. */
  lemma TrimSpaceFixes(s: string)
    ensures Bare(TrimSpace(s))
    ensures Bare(s) <==> TrimSpace(s) == s
  {
    TrimLeftBares(s);
    TrimRightBares(TrimLeft(s));
  }

  /** Trimming takes nothing but white space off the two ends. */
  lemma TrimSpaceMeans(s: string) returns (i: nat, j: nat)
    ensures i <= j <= |s| && TrimSpace(s) == s[i..j]
    ensures forall k :: 0 <= k < i || j <= k < |s| ==> IsSpace(s[k])
    ensures i < j ==> !IsSpace(s[i]) && !IsSpace(s[j - 1])
  {
    i := TrimLeftAt(s);
    var n := TrimRightAt(s[i..]);
    j := i + n;
    assert s[i..][..n] == s[i..j];
    forall k | j <= k < |s| ensures IsSpace(s[k]) {
      assert s[k] == s[i..][k - i];
    }
    if i < j {
      assert s[i] == s[i..][0] && s[j - 1] == s[i..][n - 1];
    }
  }

  lemma {:induction false} TrimLeftAt(s: string) returns (i: nat)
    ensures i <= |s| && TrimLeft(s) == s[i..] && (i < |s| ==> !IsSpace(s[i]))
    ensures forall k :: 0 <= k < i ==> IsSpace(s[k])
  {
    i := 0;
    if s != [] && IsSpace(s[0]) {
      i := TrimLeftAt(s[1..]);
      i := i + 1;
    }
  }

  lemma {:induction false} TrimRightAt(s: string) returns (j: nat)
    ensures j <= |s| && TrimRight(s) == s[..j] && (j > 0 ==> !IsSpace(s[j - 1]))
    ensures forall k :: j <= k < |s| ==> IsSpace(s[k])
  {
    j := |s|;
    if s != [] && IsSpace(s[|s| - 1]) {
      j := TrimRightAt(s[..|s| - 1]);
    }
  }

  // ---- Lines -------------------------------------------------------------------------------

  /** The position of the first occurrence of `c`, or the length of `s`. */
  function Find(s: string, c: char): (k: nat)
    ensures k <= |s| && c !in s[..k] && (k < |s| ==> s[k] == c)
  {
    if s == [] || s[0] == c then 0
    else
      var k := Find(s[1..], c);
      assert s[..k + 1] == [s[0]] + s[1..][..k];
      k + 1
  }

  function DropCR(s: string): string {
    if s != [] && s[|s| - 1] == '\r' then s[..|s| - 1] else s
  }

  /** bufio.ScanLines: lines end at a newline, lose one trailing carriage return, and a last line
      without a newline counts if it is not empty. */
  function ScanLines(s: string): seq<string>
    decreases |s|
  {
    var k := Find(s, '\n');
    if s == [] then []
    else if k == |s| then [DropCR(s)]
    else [DropCR(s[..k])] + ScanLines(s[k + 1..])
  }

  /** A text that is one line as it stands. */
  predicate OneLine(s: string) {
    '\n' !in s && DropCR(s) == s
  }

  lemma FindAfter(s: string, c: char, rest: string)
    requires c !in s
    ensures Find(s + [c] + rest, c) == |s|
  {
    assert (s + [c] + rest)[|s|] == c;
  }

  lemma ScanLine(s: string, rest: string)
    requires OneLine(s)
    ensures ScanLines(s + "\n" + rest) == [s] + ScanLines(rest)
  {
    var t := s + "\n" + rest;
    FindAfter(s, '\n', rest);
    assert t[..|s|] == s && t[|s| + 1..] == rest;
  }

  lemma ScanLastLine(s: string)
    requires OneLine(s)
    ensures ScanLines(s) == if s == "" then [] else [s]
  {
    assert Find(s, '\n') == |s|;
  }

  /** Every line followed by a newline. */
  function Unlines(lines: seq<string>): string {
    if lines == [] then "" else lines[0] + "\n" + Unlines(lines[1..])
  }

  lemma HeadFirst<T>(s: seq<T>, t: seq<T>)
    requires s != []
    ensures s + t == [s[0]] + (s[1..] + t)
  {
  }

  lemma {:induction false} ScanUnlines(lines: seq<string>, rest: string)
    requires forall k :: 0 <= k < |lines| ==> OneLine(lines[k])
    ensures ScanLines(Unlines(lines) + rest) == lines + ScanLines(rest)
  {
    if lines == [] {
      assert Unlines(lines) + rest == rest;
    } else {
      var tail := Unlines(lines[1..]) + rest;
      assert Unlines(lines) + rest == lines[0] + "\n" + tail;
      ScanLine(lines[0], tail);
      ScanUnlines(lines[1..], rest);
      HeadFirst(lines, ScanLines(rest));
    }
  }

  lemma {:induction false} UnlinesAppend(lines: seq<string>, line: string)
    ensures Unlines(lines + [line]) == Unlines(lines) + line + "\n"
  {
    if lines == [] {
      assert [line][1..] == [];
      assert Unlines([line]) == line + "\n" + "";
    } else {
      assert (lines + [line])[1..] == lines[1..] + [line];
      UnlinesAppend(lines[1..], line);
    }
  }

  /** Rust's str::lines: as ScanLines, but only a line that ends at a newline loses its carriage return. */
  function RustLines(s: string): seq<string>
    decreases |s|
  {
    var k := Find(s, '\n');
    if s == [] then []
    else if k == |s| then [s]
    else [DropCR(s[..k])] + RustLines(s[k + 1..])
  }

  lemma RustLine(s: string, rest: string)
    requires OneLine(s)
    ensures RustLines(s + "\n" + rest) == [s] + RustLines(rest)
  {
    var t := s + "\n" + rest;
    FindAfter(s, '\n', rest);
    assert t[..|s|] == s && t[|s| + 1..] == rest;
  }

  lemma {:induction false} RustUnlines(lines: seq<string>)
    requires forall k :: 0 <= k < |lines| ==> OneLine(lines[k])
    ensures RustLines(Unlines(lines)) == lines
  {
    if lines != [] {
      RustLine(lines[0], Unlines(lines[1..]));
      RustUnlines(lines[1..]);
    }
  }

  // ---- Fields ------------------------------------------------------------------------------

  /** A word: not empty, no white space. */
  predicate Word(s: string) {
    s != [] && forall k :: 0 <= k < |s| ==> !IsSpace(s[k])
  }

  function WordEnd(s: string): (k: nat)
    ensures k <= |s| && (k < |s| ==> IsSpace(s[k]))
    ensures forall i :: 0 <= i < k ==> !IsSpace(s[i])
  {
    if s == [] || IsSpace(s[0]) then 0
    else
      var k := WordEnd(s[1..]);
      assert forall i :: 1 <= i < k + 1 ==> s[i] == s[1..][i - 1];
      k + 1
  }

  /** Go's strings.Fields and Rust's split_whitespace. */
  function Words(s: string): seq<string>
    decreases |s|
  {
    if s == [] then []
    else if IsSpace(s[0]) then Words(s[1..])
    else
      var k := WordEnd(s);
      [s[..k]] + Words(s[k..])
  }

  /** strings.Join with a single space. */
  function JoinWords(ws: seq<string>): string {
    if ws == [] then "" else if |ws| == 1 then ws[0] else ws[0] + " " + JoinWords(ws[1..])
  }

  /** One more word goes behind a single space. */
  lemma {:induction false} JoinMore(ws: seq<string>, w: string)
    ensures JoinWords([]) == "" && JoinWords(ws + [w]) == if ws == [] then w else JoinWords(ws) + " " + w
  {
    if |ws| > 0 {
      assert (ws + [w])[1..] == ws[1..] + [w];
      JoinMore(ws[1..], w);
    }
  }

  lemma WordEndAt(w: string, rest: string)
    requires Word(w) && (rest == "" || IsSpace(rest[0]))
    ensures WordEnd(w + rest) == |w|
  {
    var s := w + rest;
    var k := WordEnd(s);
    assert forall i :: 0 <= i < |w| ==> s[i] == w[i];
    assert rest != "" ==> s[|w|] == rest[0];
  }

  lemma WordsCons(w: string, rest: string)
    requires Word(w) && (rest == "" || IsSpace(rest[0]))
    ensures Words(w + rest) == [w] + Words(rest)
  {
    WordEndAt(w, rest);
    assert (w + rest)[..|w|] == w && (w + rest)[|w|..] == rest;
    assert (w + rest)[0] == w[0];
  }

  lemma WordsSpace(rest: string)
    ensures Words(" " + rest) == Words(rest)
  {
    assert (" " + rest)[1..] == rest;
  }

  /** Splitting what was joined gives the words back. */
  lemma {:induction false} WordsJoin(ws: seq<string>)
    requires forall k :: 0 <= k < |ws| ==> Word(ws[k])
    ensures Words(JoinWords(ws)) == ws
  {
    if |ws| == 1 {
      WordsCons(ws[0], "");
      assert ws[0] + "" == ws[0];
    } else if |ws| > 1 {
      var tail := JoinWords(ws[1..]);
      WordsJoin(ws[1..]);
      WordsSpace(tail);
      WordsCons(ws[0], " " + tail);
      assert ws[0] + (" " + tail) == ws[0] + " " + tail;
    }
  }

  lemma {:induction false} WordsAreWords(s: string)
    ensures forall k :: 0 <= k < |Words(s)| ==> Word(Words(s)[k])
    decreases |s|
  {
    if s != [] {
      if IsSpace(s[0]) {
        WordsAreWords(s[1..]);
      } else {
        WordsAreWords(s[WordEnd(s)..]);
      }
    }
  }

  // ---- Plain text --------------------------------------------------------------------------

  /** Nothing that a line reader could split or trim. */
  predicate Plain(s: string) {
    '\n' !in s && '\r' !in s
  }

  predicate AllPlain(lines: seq<string>) {
    forall k :: 0 <= k < |lines| ==> Plain(lines[k])
  }

  lemma PlainIsOneLine(s: string)
    requires Plain(s)
    ensures OneLine(s)
  {
    assert s != "" ==> s[|s| - 1] in s;
  }

  lemma PlainConcat(a: string, b: string)
    requires Plain(a) && Plain(b)
    ensures Plain(a + b)
  {
  }

  lemma {:induction false} JoinIsPlain(ws: seq<string>)
    requires AllPlain(ws)
    ensures Plain(JoinWords(ws))
  {
    if |ws| > 1 {
      JoinIsPlain(ws[1..]);
      assert JoinWords(ws) == ws[0] + " " + JoinWords(ws[1..]);
    }
  }

  // ---- Numbers -----------------------------------------------------------------------------

  function Digits(n: nat): string {
    if n < 10 then [('0' as int + n) as char] else Digits(n / 10) + [('0' as int + n % 10) as char]
  }

  /** Decimal rendering of an integer. */
  function Decimal(n: int): string {
    if n < 0 then "-" + Digits(-n) else Digits(n)
  }

  predicate IsDigit(c: char) {
    '0' <= c <= '9'
  }

  /** The number that decimal digits stand for. */
  function Value(digits: string): int {
    if digits == "" then 0
    else 10 * Value(digits[..|digits| - 1]) + (digits[|digits| - 1] as int - '0' as int)
  }

  /** The digits of a number stand for it and have no needless zero in front. */
  lemma {:induction false} DigitsRead(n: nat)
    ensures Value(Digits(n)) == n && Digits(n) != "" && (n > 0 ==> Digits(n)[0] != '0')
    ensures forall k :: 0 <= k < |Digits(n)| ==> IsDigit(Digits(n)[k])
  {
    var s := Digits(n);
    if n < 10 {
      assert s[..0] == "";
    } else {
      DigitsRead(n / 10);
      assert s[..|s| - 1] == Digits(n / 10);
    }
  }

  lemma DecimalInjective(m: int, n: int)
    requires Decimal(m) == Decimal(n)
    ensures m == n
  {
    DigitsRead(if m < 0 then -m else m);
    DigitsRead(if n < 0 then -n else n);
    assert Decimal(m)[0] == Decimal(n)[0];
    if m < 0 {
      assert Decimal(m)[1..] == Digits(-m) && Decimal(n)[1..] == Digits(-n);
    }
  }

  /** Lower case of ASCII text. */
  function Lower(s: string): string {
    seq(|s|, k requires 0 <= k < |s| => if 'A' <= s[k] <= 'Z' then (s[k] as int + 32) as char else s[k])
  }

  /** Capital letters become small ones, and nothing else changes. */
  lemma LowerMeans(s: string)
    ensures |Lower(s)| == |s|
    ensures forall k :: 0 <= k < |s| ==>
              if s[k] in "ABCDEFGHIJKLMNOPQRSTUVWXYZ" then Lower(s)[k] as int == s[k] as int - 'A' as int + 'a' as int
              else Lower(s)[k] == s[k]
  {
  }
}
