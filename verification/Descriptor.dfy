/** integration_test/scripts/descriptor_checksum.py: output descriptors with a checksum
    (BIP 380, section 'Checksum'). */
module Descriptor {
  import opened Base
  import opened Polymod

  // the alphabet in its three groups
  const FIRST_GROUP: string := "0123456789()[],'/*abcdefgh@:$%{}"
  const SECOND_GROUP: string := "IJKLMNOPQRSTUVWXYZ&+-.;<=>?!^_|~"
  const THIRD_GROUP: string := "ijklmnopqrstuvwxyzABCDEFGH`#\"\\ "
  const INPUT_CHARSET: string := FIRST_GROUP + SECOND_GROUP + THIRD_GROUP
  const CHECKSUM_CHARSET: string := "qpzry9x8gf2tvdw0s3jn54khce6mua7l"

  /** The result of a Python function, or the exception it raises. */
  datatype Outcome<+T> = Returned(value: T) | RaisesTypeError | RaisesIndexError

  lemma CharsetLengths()
    ensures |INPUT_CHARSET| == 95 && |CHECKSUM_CHARSET| == 32
  {
  }

  /** str.find for a character that occurs. */
  function Find(charset: string, c: char): (i: nat)
    requires c in charset
    ensures i < |charset| && charset[i] == c
  {
    if charset[0] == c then 0
    else
      assert charset == [charset[0]] + charset[1..];
      1 + Find(charset[1..], c)
  }

  lemma {:induction false} FindFirst(charset: string, i: nat)
    requires NoDuplicates(charset) && i < |charset|
    ensures Find(charset, charset[i]) == i
  {
  }

  function ToSymbol(n: nat): (v: Symbol)
    requires n < 32
  {
    n as bv5
  }

  function FromSymbol(v: Symbol): (n: nat)
    ensures n < 32
  {
    v as int
  }

  lemma SymbolRoundTrip(n: nat)
    requires n < 32
    ensures FromSymbol(ToSymbol(n)) == n
  {
  }

  lemma SymbolBack(v: Symbol)
    ensures ToSymbol(FromSymbol(v)) == v
  {
  }

  lemma FirstCharsDistinct(i: nat, j: nat)
    requires i < 10 && i < j < 32
    ensures |CHECKSUM_CHARSET| == 32 && CHECKSUM_CHARSET[i] != CHECKSUM_CHARSET[j]
  {
  }

  lemma LastCharsDistinct(i: nat, j: nat)
    requires 10 <= i < j < 32
    ensures |CHECKSUM_CHARSET| == 32 && CHECKSUM_CHARSET[i] != CHECKSUM_CHARSET[j]
  {
  }

  lemma ChecksumCharsDistinct()
    ensures |CHECKSUM_CHARSET| == 32 && NoDuplicates(CHECKSUM_CHARSET)
  {
    CharsetLengths();
    forall i, j | 0 <= i < j < |CHECKSUM_CHARSET| ensures CHECKSUM_CHARSET[i] != CHECKSUM_CHARSET[j] {
      if i < 10 { FirstCharsDistinct(i, j); } else { LastCharsDistinct(i, j); }
    }
  }

  // ---- Expanding characters to symbols ----

  predicate InAlphabet(s: string) {
    forall c :: c in s ==> c in INPUT_CHARSET
  }

  function IndexOf(c: char): (v: nat)
    requires c in INPUT_CHARSET
    ensures v < 96
  {
    CharsetLengths();
    Find(INPUT_CHARSET, c)
  }

  /** v & 31 for each character. */
  function LowSymbols(s: string): (symbols: seq<Symbol>)
    requires InAlphabet(s)
    ensures |symbols| == |s|
  {
    seq(|s|, i requires 0 <= i < |s| && InAlphabet(s) => ToSymbol(IndexOf(s[i]) % 32))
  }

  /** v >> 5 for each character. */
  function Groups(s: string): (groups: seq<nat>)
    requires InAlphabet(s)
    ensures |groups| == |s| && forall i :: 0 <= i < |groups| ==> groups[i] < 3
  {
    seq(|s|, i requires 0 <= i < |s| && InAlphabet(s) => IndexOf(s[i]) / 32)
  }

  /** The symbol that carries the upper parts of one to three characters. */
  function GroupSymbol(groups: seq<nat>): (v: Symbol)
    requires 1 <= |groups| <= 3 && forall i :: 0 <= i < |groups| ==> groups[i] < 3
  {
    if |groups| == 3 then ToSymbol(groups[0] * 9 + groups[1] * 3 + groups[2])
    else if |groups| == 2 then ToSymbol(groups[0] * 3 + groups[1])
    else ToSymbol(groups[0])
  }

  /** One to three characters: a symbol each and one for their upper parts. */
  function ChunkSymbols(s: string): (symbols: seq<Symbol>)
    requires InAlphabet(s) && 1 <= |s| <= 3
    ensures |symbols| == |s| + 1
  {
    LowSymbols(s) + [GroupSymbol(Groups(s))]
  }

  function Symbols(s: string): (symbols: seq<Symbol>)
    requires InAlphabet(s)
    ensures |symbols| == |s| + (|s| + 2) / 3
  {
    if |s| == 0 then []
    else if |s| <= 3 then ChunkSymbols(s)
    else ChunkSymbols(s[..3]) + Symbols(s[3..])
  }

  lemma SplitHead(a: string, b: string)
    requires |a| >= 3
    ensures (a + b)[..3] == a[..3] && (a + b)[3..] == a[3..] + b
  {
  }

  lemma AlphabetParts(a: string, b: string)
    ensures InAlphabet(a + b) <==> InAlphabet(a) && InAlphabet(b)
  {
  }

  lemma {:induction false} SymbolsConcat(a: string, b: string)
    requires |a| % 3 == 0 && InAlphabet(a) && InAlphabet(b)
    ensures InAlphabet(a + b) && Symbols(a + b) == Symbols(a) + Symbols(b)
  {
    hide InAlphabet, ChunkSymbols;
    AlphabetParts(a, b);
    if |a| == 0 {
      assert a + b == b;
    } else {
      SplitHead(a, b);
      AlphabetParts(a[..3], a[3..]);
      assert a == a[..3] + a[3..];
      SymbolsConcat(a[3..], b);
      SymbolsUnfold(a);
      SymbolsUnfold(a + b);
    }
  }

  lemma SymbolsUnfold(s: string)
    requires InAlphabet(s) && |s| >= 3
    ensures InAlphabet(s[..3]) && InAlphabet(s[3..]) && Symbols(s) == ChunkSymbols(s[..3]) + Symbols(s[3..])
  {
    hide InAlphabet, ChunkSymbols;
    assert s == s[..3] + s[3..];
    AlphabetParts(s[..3], s[3..]);
    if |s| == 3 {
      assert s[..3] == s && s[3..] == "";
      assert Symbols(s[3..]) == [];
    }
  }

  /** The loop of descsum_expand after `i` characters, of which the last `i - done` wait for their group. */
  ghost predicate Expanding(s: string, done: nat, i: nat, symbols: seq<Symbol>, groups: seq<nat>) {
    && done <= i <= |s| && done % 3 == 0 && i < done + 3
    && InAlphabet(s[..done]) && InAlphabet(s[done..i])
    && symbols == Symbols(s[..done]) + LowSymbols(s[done..i])
    && groups == Groups(s[done..i])
  }

  lemma NextCharacter(s: string, done: nat, i: nat)
    requires done <= i < |s| && InAlphabet(s[done..i]) && s[i] in INPUT_CHARSET
    ensures InAlphabet(s[done..i + 1])
    ensures LowSymbols(s[done..i + 1]) == LowSymbols(s[done..i]) + [ToSymbol(IndexOf(s[i]) % 32)]
    ensures Groups(s[done..i + 1]) == Groups(s[done..i]) + [IndexOf(s[i]) / 32]
  {
    hide IndexOf, ToSymbol, INPUT_CHARSET;
    assert s[done..i + 1] == s[done..i] + [s[i]];
  }

  lemma ChunkDone(s: string, done: nat, i: nat)
    requires done < i <= |s| && i <= done + 3 && done % 3 == 0 && InAlphabet(s[..done]) && InAlphabet(s[done..i])
    ensures InAlphabet(s[..i])
    ensures Symbols(s[..i]) == Symbols(s[..done]) + LowSymbols(s[done..i]) + [GroupSymbol(Groups(s[done..i]))]
  {
    hide InAlphabet, LowSymbols, Groups, GroupSymbol;
    assert s[..i] == s[..done] + s[done..i];
    SymbolsConcat(s[..done], s[done..i]);
    assert Symbols(s[done..i]) == ChunkSymbols(s[done..i]);
  }

  /** One iteration: the character's symbol, and its group's when that is complete. */
  lemma ExpandsNext(s: string, done: nat, i: nat, symbols: seq<Symbol>, groups: seq<nat>)
    requires Expanding(s, done, i, symbols, groups) && i < |s| && s[i] in INPUT_CHARSET && |groups| < 3
    ensures var low, grown := symbols + [ToSymbol(IndexOf(s[i]) % 32)], groups + [IndexOf(s[i]) / 32];
      if |grown| < 3 then Expanding(s, done, i + 1, low, grown)
      else Expanding(s, i + 1, i + 1, low + [GroupSymbol(grown)], [])
  {
    hide InAlphabet, Symbols, LowSymbols, Groups, ToSymbol, IndexOf, GroupSymbol, INPUT_CHARSET;
    NextCharacter(s, done, i);
    if |groups| == 2 {
      ChunkDone(s, done, i + 1);
      NothingPending(s, i + 1);
    }
  }

  lemma BadCharacter(s: string, i: nat)
    requires i < |s| && s[i] !in INPUT_CHARSET
    ensures !InAlphabet(s)
  {
  }

  /** descsum_expand: None for a character outside the alphabet. */
  method DescsumExpand(s: string) returns (r: Option<seq<Symbol>>)
    ensures r == if InAlphabet(s) then Some(Symbols(s)) else None
  {
    hide InAlphabet, Symbols, ToSymbol, IndexOf, Expanding, INPUT_CHARSET;
    var groups: seq<nat> := [];
    var symbols: seq<Symbol> := [];
    ghost var done := 0;
    var i := 0;
    NothingYet(s);
    while i < |s|
      invariant 0 <= i <= |s| && |groups| < 3
      invariant forall k :: 0 <= k < |groups| ==> groups[k] < 3
      invariant Expanding(s, done, i, symbols, groups)
    {
      var c := s[i];
      if c !in INPUT_CHARSET {
        BadCharacter(s, i);
        return None;
      }
      var v := IndexOf(c);
      ExpandsNext(s, done, i, symbols, groups);
      symbols := symbols + [ToSymbol(v % 32)];
      groups := groups + [v / 32];
      i := i + 1;
      if |groups| == 3 {
        symbols := symbols + [ToSymbol(groups[0] * 9 + groups[1] * 3 + groups[2])];
        groups := [];
        done := i;
      }
    }
    AllExpanded(s, done, i, symbols, groups);
    if |groups| == 1 {
      symbols := symbols + [ToSymbol(groups[0])];
    } else if |groups| == 2 {
      symbols := symbols + [ToSymbol(groups[0] * 3 + groups[1])];
    }
    return Some(symbols);
  }

  lemma NothingPending(s: string, done: nat)
    requires done <= |s|
    ensures InAlphabet(s[done..done]) && LowSymbols(s[done..done]) == [] && Groups(s[done..done]) == []
  {
  }

  lemma NothingYet(s: string)
    ensures Expanding(s, 0, 0, [], [])
  {
  }

  lemma AllExpanded(s: string, done: nat, i: nat, symbols: seq<Symbol>, groups: seq<nat>)
    requires Expanding(s, done, i, symbols, groups) && i == |s| && |groups| < 3
    ensures InAlphabet(s)
    ensures forall k :: 0 <= k < |groups| ==> groups[k] < 3
    ensures Symbols(s) == if |groups| == 0 then symbols else symbols + [GroupSymbol(groups)]
  {
    hide InAlphabet, Symbols, GroupSymbol, LowSymbols, Groups;
    assert s[..i] == s;
    if |groups| > 0 { ChunkDone(s, done, i); }
  }

  // ---- The symbols determine the characters ----

  lemma ToSymbolInjective(m: nat, n: nat)
    requires m < 32 && n < 32 && ToSymbol(m) == ToSymbol(n)
    ensures m == n
  {
    hide ToSymbol;
    SymbolRoundTrip(m);
    SymbolRoundTrip(n);
  }

  lemma GroupSymbolInjective(g: seq<nat>, h: seq<nat>)
    requires 1 <= |g| == |h| <= 3
    requires forall i :: 0 <= i < |g| ==> g[i] < 3 && h[i] < 3
    requires GroupSymbol(g) == GroupSymbol(h)
    ensures g == h
  {
    hide ToSymbol;
    if |g| == 3 {
      ToSymbolInjective(g[0] * 9 + g[1] * 3 + g[2], h[0] * 9 + h[1] * 3 + h[2]);
    } else if |g| == 2 {
      ToSymbolInjective(g[0] * 3 + g[1], h[0] * 3 + h[1]);
    } else {
      ToSymbolInjective(g[0], h[0]);
    }
  }

  lemma IndexInjective(c: char, d: char)
    requires c in INPUT_CHARSET && d in INPUT_CHARSET && IndexOf(c) == IndexOf(d)
    ensures c == d
  {
  }

  lemma LowAndGroup(c: char, d: char)
    requires c in INPUT_CHARSET && d in INPUT_CHARSET
    requires ToSymbol(IndexOf(c) % 32) == ToSymbol(IndexOf(d) % 32) && IndexOf(c) / 32 == IndexOf(d) / 32
    ensures c == d
  {
    hide ToSymbol, IndexOf;
    ToSymbolInjective(IndexOf(c) % 32, IndexOf(d) % 32);
    IndexInjective(c, d);
  }

  lemma ChunkInjective(s: string, t: string)
    requires InAlphabet(s) && InAlphabet(t) && 1 <= |s| == |t| <= 3
    requires ChunkSymbols(s) == ChunkSymbols(t)
    ensures s == t
  {
    hide ToSymbol, IndexOf, GroupSymbol;
    assert ChunkSymbols(s)[|s|] == ChunkSymbols(t)[|t|];
    GroupSymbolInjective(Groups(s), Groups(t));
    forall i | 0 <= i < |s| ensures s[i] == t[i] {
      assert ChunkSymbols(s)[i] == ChunkSymbols(t)[i];
      assert LowSymbols(s)[i] == LowSymbols(t)[i] && Groups(s)[i] == Groups(t)[i];
      LowAndGroup(s[i], t[i]);
    }
  }

  lemma {:induction false} SymbolsInjective(s: string, t: string)
    requires InAlphabet(s) && InAlphabet(t) && |s| == |t| && Symbols(s) == Symbols(t)
    ensures s == t
  {
    hide InAlphabet, ChunkSymbols;
    if |s| == 0 {
    } else if |s| <= 3 {
      ChunkInjective(s, t);
    } else {
      SymbolsUnfold(s);
      SymbolsUnfold(t);
      assert Symbols(s)[..4] == ChunkSymbols(s[..3]) && Symbols(t)[..4] == ChunkSymbols(t[..3]);
      assert Symbols(s)[4..] == Symbols(s[3..]) && Symbols(t)[4..] == Symbols(t[3..]);
      ChunkInjective(s[..3], t[..3]);
      SymbolsInjective(s[3..], t[3..]);
      assert s == s[..3] + s[3..] && t == t[..3] + t[3..];
    }
  }

  // ---- Creating and checking ----

  /** The eight characters of a checksum. */
  function ChecksumText(symbols: seq<Symbol>): (text: string)
    ensures |text| == |symbols|
    ensures forall i :: 0 <= i < |text| ==> text[i] in CHECKSUM_CHARSET
  {
    CharsetLengths();
    seq(|symbols|, i requires 0 <= i < |symbols| => CHECKSUM_CHARSET[FromSymbol(symbols[i])])
  }

  predicate IsChecksumText(s: string) {
    forall c :: c in s ==> c in CHECKSUM_CHARSET
  }

  function ChecksumIndices(s: string): (symbols: seq<Symbol>)
    requires IsChecksumText(s)
    ensures |symbols| == |s|
  {
    CharsetLengths();
    seq(|s|, i requires 0 <= i < |s| && IsChecksumText(s) => ToSymbol(Find(CHECKSUM_CHARSET, s[i])))
  }

  function Checksum(s: string): (symbols: seq<Symbol>)
    requires InAlphabet(s)
    ensures |symbols| == 8
  {
    ChecksumSymbols(Xor(Run(1, Symbols(s) + Zeros(8)), 1))
  }

  /** descsum_create; adding a list to None is a TypeError. */
  function DescsumCreate(s: string): (r: Outcome<string>) {
    if !InAlphabet(s) then RaisesTypeError else Returned(s + "#" + ChecksumText(Checksum(s)))
  }

  /** descsum_check. */
  function DescsumCheck(s: string, require: bool): (r: Outcome<bool>) {
    if '#' !in s then Returned(!require)
    else if |s| < 9 then RaisesIndexError
    else
      var body, tail := s[..|s| - 9], s[|s| - 8..];
      if s[|s| - 9] != '#' then Returned(false)
      else if !IsChecksumText(tail) then Returned(false)
      else if !InAlphabet(body) then RaisesTypeError
      else Returned(Run(1, Symbols(body) + ChecksumIndices(tail)) == 1)
  }

  lemma IndicesOfText(symbols: seq<Symbol>)
    ensures ChecksumIndices(ChecksumText(symbols)) == symbols
  {
    hide ToSymbol, FromSymbol;
    ChecksumCharsDistinct();
    var text := ChecksumText(symbols);
    forall i | 0 <= i < |symbols| ensures ChecksumIndices(text)[i] == symbols[i] {
      FindFirst(CHECKSUM_CHARSET, FromSymbol(symbols[i]));
      SymbolBack(symbols[i]);
    }
  }

  lemma TextOfIndices(text: string)
    requires IsChecksumText(text)
    ensures ChecksumText(ChecksumIndices(text)) == text
  {
    hide ToSymbol, FromSymbol;
    CharsetLengths();
    forall i | 0 <= i < |text| ensures ChecksumText(ChecksumIndices(text))[i] == text[i] {
      SymbolRoundTrip(Find(CHECKSUM_CHARSET, text[i]));
    }
  }

  /** A string is accepted exactly when it is the output of descsum_create for its own body: creating
      and checking are inverse, and no other checksum passes. */
  lemma AcceptedIffCreated(t: string)
    ensures DescsumCheck(t, true) == Returned(true) <==>
      |t| >= 9 && DescsumCreate(t[..|t| - 9]) == Returned(t)
  {
    hide Run, InAlphabet, Symbols, Xor, ChecksumSymbols, ChecksumText;
    if |t| >= 9 {
      var body, tail := t[..|t| - 9], t[|t| - 8..];
      assert t == body + [t[|t| - 9]] + tail;
      if InAlphabet(body) {
        ChecksumUnique(Symbols(body), if IsChecksumText(tail) then ChecksumIndices(tail) else Checksum(body));
        IndicesOfText(Checksum(body));
        if IsChecksumText(tail) { TextOfIndices(tail); }
        Splits(body, t, ChecksumText(Checksum(body)));
      }
    }
  }

  lemma Splits(body: string, t: string, text: string)
    requires |t| >= 9 && body == t[..|t| - 9] && |text| == 8
    ensures t == body + "#" + text <==> t[|t| - 9] == '#' && t[|t| - 8..] == text
    ensures t == body + "#" + text ==> '#' in t
  {
    var made := body + "#" + text;
    assert made[|body|] == '#' && made[|body| + 1..] == text;
    if t[|t| - 9] == '#' && t[|t| - 8..] == text {
      assert t == t[..|t| - 9] + [t[|t| - 9]] + t[|t| - 8..];
    }
  }

  /** Round trip: for every string over the input alphabet, and only for those, descsum_create gives
      a result, and descsum_check accepts it. */
  lemma RoundTrip(s: string, require: bool)
    ensures DescsumCreate(s).Returned? <==> InAlphabet(s)
    ensures InAlphabet(s) ==> DescsumCheck(DescsumCreate(s).value, require) == Returned(true)
  {
    if InAlphabet(s) {
      hide Run, InAlphabet, Symbols;
      var t := DescsumCreate(s).value;
      assert t[..|t| - 9] == s;
      AcceptedIffCreated(t);
      assert t[|s|] == '#';
    }
  }

  // ---- Corruption ----

  /** The strings have the same length and differ in four consecutive characters at most. */
  predicate SameOutside(t: string, u: string, p: nat) {
    |t| == |u| && forall i :: 0 <= i < |t| && (i < p || p + 4 <= i) ==> t[i] == u[i]
  }

  lemma CreatedCompletes(s: string)
    requires InAlphabet(s)
    ensures Run(1, Symbols(s) + Checksum(s)) == 1
  {
    hide Run, Symbols, InAlphabet;
    ChecksumCompletes(Symbols(s));
  }

  lemma SameText(a: seq<Symbol>, b: seq<Symbol>, j: nat)
    requires |a| == |b| && j <= |a|
    requires forall k :: j <= k < |a| ==> ChecksumText(a)[k] == ChecksumText(b)[k]
    ensures a[j..] == b[j..]
  {
    hide ToSymbol, FromSymbol, ChecksumText;
    IndicesOfText(a);
    IndicesOfText(b);
    forall k | j <= k < |a| ensures a[k] == b[k] {
      assert a[k] == ToSymbol(Find(CHECKSUM_CHARSET, ChecksumText(a)[k]));
      assert b[k] == ToSymbol(Find(CHECKSUM_CHARSET, ChecksumText(b)[k]));
    }
  }

  /** Equal strings outside the two groups that start at `start`, with checksums that agree from
      symbol `j` on; the groups and the first checksum symbols are one burst. */
  lemma SameBurst(s: string, v: string, start: nat, j: nat)
    requires InAlphabet(s) && InAlphabet(v) && |s| == |v| && start <= |s| && start % 3 == 0
    requires s[..start] == v[..start] && |s| < start + 6 && j == 8 - |s[start..]| - (|s[start..]| + 2) / 3
    requires Checksum(s)[j..] == Checksum(v)[j..]
    ensures s == v
  {
    hide Run, InAlphabet, Checksum, Symbols;
    var r, q := s[start..], v[start..];
    assert s == s[..start] + r && v == s[..start] + q;
    AlphabetParts(s[..start], r);
    AlphabetParts(s[..start], q);
    SymbolsConcat(s[..start], r);
    SymbolsConcat(s[..start], q);
    CreatedCompletes(s);
    CreatedCompletes(v);
    var before, after := Symbols(s[..start]), Checksum(s)[j..];
    var a, b := Symbols(r) + Checksum(s)[..j], Symbols(q) + Checksum(v)[..j];
    Regroup(before, Symbols(r), Checksum(s), j);
    Regroup(before, Symbols(q), Checksum(v), j);
    if a != b {
      BurstDetected(1, before, a, b, after);
    }
    assert a[..|Symbols(r)|] == Symbols(r) && b[..|Symbols(r)|] == Symbols(q);
    SymbolsInjective(r, q);
  }

  lemma Regroup(a: seq<Symbol>, b: seq<Symbol>, c: seq<Symbol>, j: nat)
    requires j <= |c|
    ensures (a + b) + c == a + (b + c[..j]) + c[j..]
  {
  }

  /** The same with more characters after the two groups. */
  lemma SameInnerBurst(s: string, v: string, start: nat)
    requires InAlphabet(s) && InAlphabet(v) && |s| == |v| && start + 6 <= |s| && start % 3 == 0
    requires s[..start] == v[..start] && s[start + 6..] == v[start + 6..] && Checksum(s) == Checksum(v)
    ensures s == v
  {
    hide Run, InAlphabet, Checksum, Symbols;
    var r, q, rest := s[start..start + 6], v[start..start + 6], s[start + 6..];
    assert s == s[..start] + (r + rest) && v == s[..start] + (q + rest);
    AlphabetParts(s[..start], r + rest);
    AlphabetParts(s[..start], q + rest);
    AlphabetParts(r, rest);
    AlphabetParts(q, rest);
    SymbolsConcat(s[..start], r + rest);
    SymbolsConcat(s[..start], q + rest);
    SymbolsConcat(r, rest);
    SymbolsConcat(q, rest);
    CreatedCompletes(s);
    CreatedCompletes(v);
    var before, after := Symbols(s[..start]), Symbols(rest) + Checksum(s);
    Reassociate(before, Symbols(r), Symbols(rest), Checksum(s));
    Reassociate(before, Symbols(q), Symbols(rest), Checksum(s));
    if Symbols(r) != Symbols(q) {
      BurstDetected(1, before, Symbols(r), Symbols(q), after);
    }
    SymbolsInjective(r, q);
  }

  lemma Reassociate(a: seq<Symbol>, b: seq<Symbol>, c: seq<Symbol>, d: seq<Symbol>)
    ensures (a + (b + c)) + d == a + b + (c + d)
  {
  }

  /** Two results of descsum_create that differ in four consecutive characters at most are the same. */
  lemma CreatedApart(s: string, v: string, p: nat)
    requires InAlphabet(s) && InAlphabet(v) && SameOutside(DescsumCreate(s).value, DescsumCreate(v).value, p)
    ensures s == v
  {
    hide Run, InAlphabet, Checksum, Symbols, ChecksumText;
    var t, u := DescsumCreate(s).value, DescsumCreate(v).value;
    var start := p - p % 3;
    assert |s| == |v|;
    assert forall i :: 0 <= i < |s| ==> t[i] == s[i] && u[i] == v[i];
    assert forall k :: 0 <= k < 8 ==> t[|s| + 1 + k] == ChecksumText(Checksum(s))[k];
    assert forall k :: 0 <= k < 8 ==> u[|s| + 1 + k] == ChecksumText(Checksum(v))[k];
    if start > |s| {
      assert v == s;
    } else if start + 6 <= |s| {
      SameText(Checksum(s), Checksum(v), 0);
      SameInnerBurst(s, v, start);
    } else {
      var j := 8 - (|s| - start) - (|s| - start + 2) / 3;
      SameText(Checksum(s), Checksum(v), j);
      SameBurst(s, v, start, j);
    }
  }

  /** Error detection: no corruption of up to four consecutive characters of a descriptor with its
      checksum is ever accepted, wherever it is, the separator and the checksum included. */
  lemma CorruptionDetected(s: string, u: string, p: nat)
    requires InAlphabet(s)
    requires SameOutside(DescsumCreate(s).value, u, p) && u != DescsumCreate(s).value
    ensures DescsumCheck(u, true) != Returned(true)
  {
    hide Run, InAlphabet, Checksum, Symbols, DescsumCheck, ChecksumText;
    AcceptedIffCreated(u);
    if DescsumCheck(u, true) == Returned(true) {
      CreatedApart(s, u[..|u| - 9], p);
    }
  }
}
