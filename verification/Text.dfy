/**
 The string and path operations of the Go standard library that the program relies on.
 A Go string is modelled as the sequence of the characters it encodes.
 */
module Text {

  // ----- white space -----

  /** unicode.IsSpace */
  predicate IsSpace(c: char) {
    var n := c as int;
    9 <= n <= 13 || n == 0x20 || n == 0x85 || n == 0xA0 || n == 0x1680 || 0x2000 <= n <= 0x200A
    || n == 0x2028 || n == 0x2029 || n == 0x202F || n == 0x205F || n == 0x3000
  }

  predicate Blank(s: string) {
    forall i | 0 <= i < |s| :: IsSpace(s[i])
  }

  /** A non-empty string without white space. */
  predicate Word(s: string) {
    s != "" && forall i | 0 <= i < |s| :: !IsSpace(s[i])
  }

  lemma WordConcat(a: string, b: string)
    requires Word(a) && Word(b)
    ensures Word(a + b)
  {
  }

  function TrimLeft(s: string): string {
    if s != "" && IsSpace(s[0]) then TrimLeft(s[1..]) else s
  }

  function TrimRight(s: string): string {
    if s != "" && IsSpace(s[|s| - 1]) then TrimRight(s[..|s| - 1]) else s
  }

  /** strings.TrimSpace */
  function TrimSpace(s: string): string {
    TrimRight(TrimLeft(s))
  }

  lemma {:induction false} TrimLeftBlank(s: string)
    ensures TrimLeft(s) == "" <==> Blank(s)
    ensures TrimLeft(s) != "" ==> !IsSpace(TrimLeft(s)[0])
  {
    if s != "" && IsSpace(s[0]) {
      TrimLeftBlank(s[1..]);
      assert s == [s[0]] + s[1..];
      assert Blank(s) <==> Blank(s[1..]) by {
        if Blank(s[1..]) {
          forall i | 0 <= i < |s| ensures IsSpace(s[i]) {
            if i > 0 { assert s[i] == s[1..][i - 1]; }
          }
        }
      }
    }
  }

  lemma {:induction false} TrimRightBlank(s: string)
    ensures TrimRight(s) == "" <==> Blank(s)
  {
    if s != "" && IsSpace(s[|s| - 1]) {
      TrimRightBlank(s[..|s| - 1]);
    }
  }

  /** TrimSpace leaves nothing exactly when there is nothing but white space. */
  lemma TrimSpaceBlank(s: string)
    ensures TrimSpace(s) == "" <==> Blank(s)
  {
    TrimLeftBlank(s);
    TrimRightBlank(TrimLeft(s));
    if TrimLeft(s) != "" {
      assert !Blank(TrimLeft(s));
    }
  }

  lemma {:induction false} TrimLeftAppend(s: string, c: char)
    requires IsSpace(c)
    ensures TrimLeft(s + [c]) == if Blank(s) then "" else TrimLeft(s) + [c]
  {
    if s == "" {
      assert TrimLeft([c]) == TrimLeft([c][1..]);
    } else if IsSpace(s[0]) {
      assert (s + [c])[1..] == s[1..] + [c];
      TrimLeftAppend(s[1..], c);
      TrimLeftBlank(s);
      TrimLeftBlank(s[1..]);
    }
  }

  /** A trailing white space character does not survive trimming. */
  lemma TrimSpaceAppend(s: string, c: char)
    requires IsSpace(c)
    ensures TrimSpace(s + [c]) == TrimSpace(s)
  {
    TrimLeftAppend(s, c);
    TrimLeftBlank(s);
    var t := TrimLeft(s) + [c];
    assert t[..|t| - 1] == TrimLeft(s);
  }

  lemma {:induction false} TrimLeftParts(s: string) returns (pre: string)
    ensures Blank(pre) && s == pre + TrimLeft(s)
    ensures TrimLeft(s) != "" ==> !IsSpace(TrimLeft(s)[0])
  {
    pre := "";
    if s != "" && IsSpace(s[0]) {
      pre := TrimLeftParts(s[1..]);
      pre := [s[0]] + pre;
    }
  }

  lemma {:induction false} TrimRightParts(s: string) returns (post: string)
    ensures Blank(post) && s == TrimRight(s) + post
    ensures TrimRight(s) != "" ==> !IsSpace(TrimRight(s)[|TrimRight(s)| - 1])
  {
    post := "";
    if s != "" && IsSpace(s[|s| - 1]) {
      post := TrimRightParts(s[..|s| - 1]);
      post := post + [s[|s| - 1]];
    }
  }

  /** Trimming takes white space off both ends, all of it and nothing else. */
  lemma TrimSpaceParts(s: string) returns (pre: string, post: string)
    ensures Blank(pre) && Blank(post) && s == pre + TrimSpace(s) + post
    ensures var t := TrimSpace(s); t != "" ==> !IsSpace(t[0]) && !IsSpace(t[|t| - 1])
  {
    hide TrimLeft, TrimRight;
    pre := TrimLeftParts(s);
    post := TrimRightParts(TrimLeft(s));
    assert TrimSpace(s) != "" ==> TrimLeft(s)[0] == TrimSpace(s)[0];
  }

  // ----- fields -----

  function WordEnd(s: string): (n: nat)
    ensures n <= |s|
    ensures forall i | 0 <= i < n :: !IsSpace(s[i])
    ensures n < |s| ==> IsSpace(s[n])
  {
    if s == "" || IsSpace(s[0]) then 0 else 1 + WordEnd(s[1..])
  }

  /** strings.Fields */
  function Fields(s: string): seq<string>
    decreases |s|
  {
    if s == "" then []
    else if IsSpace(s[0]) then Fields(s[1..])
    else
      var n := WordEnd(s);
      [s[..n]] + Fields(s[n..])
  }

  lemma {:induction false} FieldsBlank(s: string)
    requires Blank(s)
    ensures Fields(s) == []
    decreases |s|
  {
    if s != "" { FieldsBlank(s[1..]); }
  }

  lemma {:induction false} FieldsSkip(gap: string, s: string)
    requires Blank(gap)
    ensures Fields(gap + s) == Fields(s)
    decreases |gap|
  {
    if gap == "" {
      assert gap + s == s;
    } else {
      assert (gap + s)[1..] == gap[1..] + s;
      FieldsSkip(gap[1..], s);
    }
  }

  lemma FieldsWord(w: string, rest: string)
    requires Word(w)
    requires rest == "" || IsSpace(rest[0])
    ensures Fields(w + rest) == [w] + Fields(rest)
  {
    var s := w + rest;
    var n := WordEnd(s);
    assert s[0] == w[0];
    assert forall i | 0 <= i < |w| :: s[i] == w[i];
    assert rest != "" ==> s[|w|] == rest[0];
    assert n == |w|;
    assert s[..n] == w && s[n..] == rest;
  }

  /** Two words separated by white space are exactly two fields. */
  lemma FieldsPair(a: string, gap: string, b: string)
    requires Word(a) && Word(b) && gap != "" && Blank(gap)
    ensures Fields(a + gap + b) == [a, b]
  {
    assert a + gap + b == a + (gap + b);
    FieldsWord(a, gap + b);
    FieldsSkip(gap, b);
    assert b == b + "";
    FieldsWord(b, "");
  }

  /** Two words in a line: white space around them, some between them, and nothing else. */
  ghost predicate TwoWords(s: string, a: string, b: string) {
    exists pre, gap, post ::
      Blank(pre) && Blank(gap) && Blank(post) && gap != "" && s == pre + a + gap + b + post && Word(a) && Word(b)
  }

  lemma {:induction false} NoFieldsIsBlank(s: string)
    requires Fields(s) == []
    ensures Blank(s)
    decreases |s|
  {
    if s != "" {
      NoFieldsIsBlank(s[1..]);
      assert forall i | 1 <= i < |s| :: s[i] == s[1..][i - 1];
    }
  }

  /** A text with fields is white space, its first field, and a rest with the other fields. */
  lemma {:induction false} FirstField(s: string) returns (pre: string, w: string, rest: string)
    requires Fields(s) != []
    ensures Blank(pre) && Word(w) && s == pre + w + rest
    ensures rest == "" || IsSpace(rest[0])
    ensures Fields(s) == [w] + Fields(rest)
    decreases |s|
  {
    if IsSpace(s[0]) {
      pre, w, rest := FirstField(s[1..]);
      pre := [s[0]] + pre;
    } else {
      pre, w, rest := "", s[..WordEnd(s)], s[WordEnd(s)..];
    }
  }

  lemma FieldsOfTwoWords(pre: string, a: string, gap: string, b: string, post: string)
    requires Blank(pre) && Blank(gap) && Blank(post) && gap != "" && Word(a) && Word(b)
    ensures Fields(pre + a + gap + b + post) == [a, b]
  {
    hide Fields;
    assert pre + a + gap + b + post == pre + (a + (gap + (b + post)));
    FieldsSkip(pre, a + (gap + (b + post)));
    FieldsWord(a, gap + (b + post));
    FieldsSkip(gap, b + post);
    FieldsWord(b, post);
    FieldsBlank(post);
  }

  /** A text has two given fields exactly when it consists of these two words. */
  lemma FieldsIffTwoWords(s: string, a: string, b: string)
    ensures Fields(s) == [a, b] <==> TwoWords(s, a, b)
  {
    hide Fields;
    if Fields(s) == [a, b] {
      assert [a, b] == [a] + [b] && [b] == [b] + [];
      var pre, w, rest := FirstField(s);
      HeadAndTail(w, Fields(rest), a, [b]);
      FieldsOfBlankTail(rest);
      var gap, v, post := FirstField(rest);
      HeadAndTail(v, Fields(post), b, []);
      NoFieldsIsBlank(post);
      assert rest[0] == (gap + v)[0];
      assert s == pre + a + gap + b + post;
    }
    if TwoWords(s, a, b) {
      var pre, gap, post :|
        Blank(pre) && Blank(gap) && Blank(post) && gap != "" && s == pre + a + gap + b + post && Word(a) && Word(b);
      FieldsOfTwoWords(pre, a, gap, b, post);
    }
  }

  lemma HeadAndTail<T>(x: T, xs: seq<T>, y: T, ys: seq<T>)
    requires [x] + xs == [y] + ys
    ensures x == y && xs == ys
  {
    assert ([x] + xs)[0] == ([y] + ys)[0] && ([x] + xs)[1..] == ([y] + ys)[1..];
  }

  lemma FieldsOfBlankTail(s: string)
    requires Fields(s) != []
    ensures s != ""
  {
  }

  // ----- letter case -----

  /**
   Equality of two characters under Unicode simple case folding. Exact whenever one of the two
   is an ASCII character, as every character of a printed digest is.
   */
  predicate FoldsTo(a: char, b: char) {
    || a == b
    || ('A' <= a <= 'Z' && b as int == a as int + 32)
    || ('A' <= b <= 'Z' && a as int == b as int + 32)
    || ({a, b} <= {'K', 'k', '\U{212A}'})
    || ({a, b} <= {'S', 's', '\U{017F}'})
  }

  /** strings.EqualFold */
  predicate EqualFold(s: string, t: string) {
    |s| == |t| && forall i | 0 <= i < |s| :: FoldsTo(s[i], t[i])
  }

  // ----- paths -----

  /** The position of the last slash, or -1. */
  function LastSlash(p: string): (i: int)
    ensures -1 <= i < |p|
    ensures i >= 0 ==> p[i] == '/'
    ensures forall j | i < j < |p| :: p[j] != '/'
  {
    if p == "" then -1
    else if p[|p| - 1] == '/' then |p| - 1
    else LastSlash(p[..|p| - 1])
  }

  /** filepath.Dir of a clean relative path */
  function Dir(p: string): string {
    var i := LastSlash(p);
    if i < 0 then "." else p[..i]
  }

  /** filepath.Base of a clean relative path */
  function Base(p: string): (b: string)
    ensures '/' !in b
  {
    p[LastSlash(p) + 1..]
  }

  /** filepath.Join of a clean directory and a plain file name */
  function Join(dir: string, name: string): string {
    dir + "/" + name
  }

  lemma JoinParts(dir: string, name: string)
    requires '/' !in name
    ensures Dir(Join(dir, name)) == dir
    ensures Base(Join(dir, name)) == name
    ensures '/' in Join(dir, name)
  {
    var p := Join(dir, name);
    assert p[|dir|] == '/';
    assert forall i | |dir| < i < |p| :: p[i] == name[i - |dir| - 1];
    assert LastSlash(p) == |dir|;
  }

  lemma PartsJoin(p: string)
    requires '/' in p
    ensures p == Join(Dir(p), Base(p))
  {
  }

  lemma JoinInjective(dir: string, a: string, b: string)
    requires Join(dir, a) == Join(dir, b)
    ensures a == b
  {
    assert a == Join(dir, a)[|dir| + 1..];
    assert b == Join(dir, b)[|dir| + 1..];
  }

  predicate EndsWith(s: string, suffix: string) {
    |suffix| <= |s| && s[|s| - |suffix|..] == suffix
  }

  /** A usable file name: not empty, within one directory, and not a way to name a directory itself. */
  predicate PlainName(n: string) {
    n != "" && '/' !in n && n != "." && n != ".."
  }

  // ----- decimal numbers -----

  /** strconv.Itoa on the indices of a slice */
  function Itoa(n: nat): (s: string)
    ensures s != ""
  {
    if n < 10 then [Digit(n)] else Itoa(n / 10) + [Digit(n % 10)]
  }

  function Digit(d: nat): char
    requires d < 10
  {
    '0' + d as char
  }

  function Atoi(s: string): int {
    if s == "" then 0 else 10 * Atoi(s[..|s| - 1]) + (s[|s| - 1] as int - '0' as int)
  }

  lemma {:induction false} AtoiItoa(n: nat)
    ensures Atoi(Itoa(n)) == n
  {
    if n < 10 {
      assert Itoa(n)[..0] == "";
    } else {
      AtoiItoa(n / 10);
      assert Itoa(n)[..|Itoa(n)| - 1] == Itoa(n / 10);
    }
  }

  /** Different indices have different decimal names. */
  lemma ItoaInjective(m: nat, n: nat)
    requires Itoa(m) == Itoa(n)
    ensures m == n
  {
    AtoiItoa(m);
    AtoiItoa(n);
  }
}
