/** The order of the alphabet, and one descriptor with its checksum computed: raw(deadbeef)#89f8spxm, an example of
    BIP 380. */
module DescriptorExample {
  import opened Polymod
  import opened Descriptor

  // ---- The order of the alphabet ----

  /** Digits first, then the letters, whose two cases always differ by a multiple of 32, with the other characters in the
      places that are left. */
  function Position(c: char): (i: nat) {
    if '0' <= c <= '9' then c as int - '0' as int
    else if 'a' <= c <= 'h' then 18 + c as int - 'a' as int
    else if 'I' <= c <= 'Z' then 32 + c as int - 'I' as int
    else if 'i' <= c <= 'z' then 64 + c as int - 'i' as int
    else if 'A' <= c <= 'H' then 82 + c as int - 'A' as int
    else match c
      case '(' => 10 case ')' => 11 case '[' => 12 case ']' => 13 case ',' => 14 case '\'' => 15
      case '/' => 16 case '*' => 17 case '@' => 26 case ':' => 27 case '$' => 28 case '%' => 29
      case '{' => 30 case '}' => 31 case '&' => 50 case '+' => 51 case '-' => 52 case '.' => 53
      case ';' => 54 case '<' => 55 case '=' => 56 case '>' => 57 case '?' => 58 case '!' => 59
      case '^' => 60 case '_' => 61 case '|' => 62 case '~' => 63 case '`' => 90 case '#' => 91
      case '\"' => 92 case '\\' => 93 case ' ' => 94 case _ => 95
  }

  lemma FirstPositions(i: nat)
    requires i < 32
    ensures |FIRST_GROUP| == 32 && Position(FIRST_GROUP[i]) == i
  {
  }

  lemma SecondLetters(i: nat)
    requires i < 18
    ensures |SECOND_GROUP| == 32 && Position(SECOND_GROUP[i]) == i + 32
  {
  }

  lemma SecondMarks(i: nat)
    requires 18 <= i < 32
    ensures |SECOND_GROUP| == 32 && Position(SECOND_GROUP[i]) == i + 32
  {
  }

  lemma ThirdPositions(i: nat)
    requires i < 31
    ensures |THIRD_GROUP| == 31 && Position(THIRD_GROUP[i]) == 64 + i
  {
  }

  /** Each character of the alphabet has the index that its position says. */
  lemma IndexIsPosition(c: char)
    requires c in INPUT_CHARSET
    ensures IndexOf(c) == Position(c)
  {
    CharsetLengths();
    hide Position;
    var i := IndexOf(c);
    if i < 32 { FirstPositions(i); } else if i < 50 { SecondLetters(i - 32); } else if i < 64 { SecondMarks(i - 32); } else { ThirdPositions(i - 64); }
  }

  // ---- One descriptor, computed ----

  lemma RunTwo(chk: bv40, a: Symbol, b: Symbol)
    ensures Run(chk, [a, b]) == Advance(Advance(chk, a), b)
  {
    hide Advance;
    var two, one := [a, b], [a];
    assert two[..1] == one && one[..0] == [];
    assert Run(chk, one) == Advance(chk, a);
  }

  lemma RunFour(chk: bv40, a: Symbol, b: Symbol, c: Symbol, d: Symbol)
    ensures Run(chk, [a, b, c, d]) == Advance(Advance(Advance(Advance(chk, a), b), c), d)
  {
    hide Advance;
    RunTwo(chk, a, b);
    RunTwo(Run(chk, [a, b]), c, d);
    RunConcat(chk, [a, b], [c, d]);
    assert [a, b] + [c, d] == [a, b, c, d];
  }

  lemma ExampleFeeds1()
    ensures Run(0x1, [9, 18, 14, 20]) == 0x14c9d4
  {
    assert Advance(0x1, 9) == 0x29;
    assert Advance(0x29, 18) == 0x532;
    assert Advance(0x532, 14) == 0xa64e;
    assert Advance(0xa64e, 20) == 0x14c9d4;
    hide Run, Advance;
    RunFour(0x1, 9, 18, 14, 20);
  }

  lemma ExampleFeeds2()
    ensures Run(0x14c9d4, [10, 21, 22, 0]) == 0xb943a04f49
  {
    assert Advance(0x14c9d4, 10) == 0x2993a8a;
    assert Advance(0x2993a8a, 21) == 0x53275155;
    assert Advance(0x53275155, 22) == 0xa64ea2ab6;
    assert Advance(0xa64ea2ab6, 0) == 0xb943a04f49;
    hide Run, Advance;
    RunFour(0x14c9d4, 10, 21, 22, 0);
  }

  lemma ExampleFeeds3()
    ensures Run(0xb943a04f49, [18, 21, 19, 0]) == 0x43cb8275b
  {
    assert Advance(0xb943a04f49, 18) == 0xbb1544f79;
    assert Advance(0xbb1544f79, 21) == 0x83f46cf6bc;
    assert Advance(0x83f46cf6bc, 19) == 0x1ac0fcb86e;
    assert Advance(0x1ac0fcb86e, 0) == 0x43cb8275b;
    hide Run, Advance;
    RunFour(0xb943a04f49, 18, 21, 19, 0);
  }

  lemma ExampleFeeds4()
    ensures Run(0x43cb8275b, [22, 22, 23, 0]) == 0x5dca20199b
  {
    assert Advance(0x43cb8275b, 22) == 0x879704eb76;
    assert Advance(0x879704eb76, 22) == 0x96adff012b;
    assert Advance(0x96adff012b, 23) == 0x180f487998;
    assert Advance(0x180f487998, 0) == 0x5dca20199b;
    hide Run, Advance;
    RunFour(0x43cb8275b, 22, 22, 23, 0);
  }

  lemma ExampleFeeds5()
    ensures Run(0x5dca20199b, [11, 0]) == 0xb685b6ead5
  {
    assert Advance(0x5dca20199b, 11) == 0xd2619d7e8a;
    assert Advance(0xd2619d7e8a, 0) == 0xb685b6ead5;
    hide Run, Advance;
    RunTwo(0x5dca20199b, 11, 0);
  }

  lemma ExampleFeeds6()
    ensures Run(0xb685b6ead5, [7, 5, 9, 7]) == 0x26e9c19974
  {
    assert Advance(0xb685b6ead5, 7) == 0x6ad65e565;
    assert Advance(0x6ad65e565, 5) == 0xd5acbcaca5;
    assert Advance(0xd5acbcaca5, 9) == 0x4f218caf3c;
    assert Advance(0x4f218caf3c, 7) == 0x26e9c19974;
    hide Run, Advance;
    RunFour(0xb685b6ead5, 7, 5, 9, 7);
  }

  lemma ExampleFeeds7()
    ensures Run(0x26e9c19974, [16, 1, 6, 27]) == 0x1
  {
    assert Advance(0x26e9c19974, 16) == 0xc69323cdbd;
    assert Advance(0xc69323cdbd, 1) == 0x812faabf26;
    assert Advance(0x812faabf26, 6) == 0x41b8358b3b;
    assert Advance(0x41b8358b3b, 27) == 0x1;
    hide Run, Advance;
    RunFour(0x26e9c19974, 16, 1, 6, 27);
  }

  /** The symbols of a chunk of three characters, each with its group and its place in the group. */
  lemma ChunkOf(s: string, x: nat, a: nat, y: nat, b: nat, z: nat, c: nat)
    requires |s| == 3 && InAlphabet(s) && x < 3 && y < 3 && z < 3 && a < 32 && b < 32 && c < 32
    requires IndexOf(s[0]) == 32 * x + a && IndexOf(s[1]) == 32 * y + b && IndexOf(s[2]) == 32 * z + c
    ensures ChunkSymbols(s) == [ToSymbol(a), ToSymbol(b), ToSymbol(c), ToSymbol(x * 9 + y * 3 + z)]
  {
    hide ToSymbol, IndexOf;
  }

  lemma ExampleIndex(c: char, i: nat)
    requires c in INPUT_CHARSET && Position(c) == i
    ensures IndexOf(c) == i
  {
    IndexIsPosition(c);
  }

  lemma ExampleChunk1()
    ensures InAlphabet("raw") && ChunkSymbols("raw") == [9, 18, 14, 20]
  {
    assert InAlphabet("raw");
    hide InAlphabet, ChunkSymbols, IndexOf, ToSymbol;
    ExampleIndex('r', 73);
    ExampleIndex('a', 18);
    ExampleIndex('w', 78);
    hide Position;
    ChunkOf("raw", 2, 9, 0, 18, 2, 14);
    SymbolValues(9, 18, 14, 20);
  }

  lemma ExampleChunk2()
    ensures InAlphabet("(de") && ChunkSymbols("(de") == [10, 21, 22, 0]
  {
    assert InAlphabet("(de");
    hide InAlphabet, ChunkSymbols, IndexOf, ToSymbol;
    ExampleIndex('(', 10);
    ExampleIndex('d', 21);
    ExampleIndex('e', 22);
    hide Position;
    ChunkOf("(de", 0, 10, 0, 21, 0, 22);
    SymbolValues(10, 21, 22, 0);
  }

  lemma ExampleChunk3()
    ensures InAlphabet("adb") && ChunkSymbols("adb") == [18, 21, 19, 0]
  {
    assert InAlphabet("adb");
    hide InAlphabet, ChunkSymbols, IndexOf, ToSymbol;
    ExampleIndex('a', 18);
    ExampleIndex('d', 21);
    ExampleIndex('b', 19);
    hide Position;
    ChunkOf("adb", 0, 18, 0, 21, 0, 19);
    SymbolValues(18, 21, 19, 0);
  }

  lemma ExampleChunk4()
    ensures InAlphabet("eef") && ChunkSymbols("eef") == [22, 22, 23, 0]
  {
    assert InAlphabet("eef");
    hide InAlphabet, ChunkSymbols, IndexOf, ToSymbol;
    ExampleIndex('e', 22);
    ExampleIndex('e', 22);
    ExampleIndex('f', 23);
    hide Position;
    ChunkOf("eef", 0, 22, 0, 22, 0, 23);
    SymbolValues(22, 22, 23, 0);
  }

  lemma SymbolValues(a: Symbol, b: Symbol, c: Symbol, d: Symbol)
    ensures ToSymbol(a as nat) == a && ToSymbol(b as nat) == b && ToSymbol(c as nat) == c && ToSymbol(d as nat) == d
  {
    SymbolBack(a);
    SymbolBack(b);
    SymbolBack(c);
    SymbolBack(d);
  }

  lemma ExampleExpands()
    ensures InAlphabet("raw(deadbeef)")
    ensures Symbols("raw(deadbeef)") == [9, 18, 14, 20, 10, 21, 22, 0, 18, 21, 19, 0, 22, 22, 23, 0, 11, 0]
  {
    hide InAlphabet, ChunkSymbols, Symbols;
    ExampleChunk1();
    ExampleChunk2();
    ExampleChunk3();
    ExampleChunk4();
    ExampleEnd();
    SymbolsConcat("eef", ")");
    SymbolsConcat("adb", "eef" + ")");
    SymbolsConcat("(de", "adb" + ("eef" + ")"));
    SymbolsConcat("raw", "(de" + ("adb" + ("eef" + ")")));
    assert "raw" + ("(de" + ("adb" + ("eef" + ")"))) == "raw(deadbeef)";
    OneChunk("raw");
    OneChunk("(de");
    OneChunk("adb");
    OneChunk("eef");
  }

  lemma ExampleEnd()
    ensures InAlphabet(")") && Symbols(")") == [11, 0]
  {
    ExampleIndex(')', 11);
    hide IndexOf;
    assert LowSymbols(")") == [ToSymbol(11)] && Groups(")") == [0];
  }

  lemma OneChunk(s: string)
    requires InAlphabet(s) && |s| == 3
    ensures Symbols(s) == ChunkSymbols(s)
  {
    hide ChunkSymbols;
  }

  lemma ExampleRuns()
    ensures Run(1, [9, 18, 14, 20, 10, 21, 22, 0, 18, 21, 19, 0, 22, 22, 23, 0, 11, 0] + [7, 5, 9, 7, 16, 1, 6, 27]) == 1
  {
    hide Run;
    var a: seq<Symbol>, b: seq<Symbol>, c: seq<Symbol>, d: seq<Symbol> := [9, 18, 14, 20], [10, 21, 22, 0], [18, 21, 19, 0], [22, 22, 23, 0];
    var e: seq<Symbol>, f: seq<Symbol>, g: seq<Symbol> := [11, 0], [7, 5, 9, 7], [16, 1, 6, 27];
    ExampleFeeds1();
    ExampleFeeds2();
    ExampleFeeds3();
    ExampleFeeds4();
    ExampleFeeds5();
    ExampleFeeds6();
    ExampleFeeds7();
    RunConcat(1, a, b);
    RunConcat(1, a + b, c);
    RunConcat(1, a + b + c, d);
    RunConcat(1, a + b + c + d, e);
    RunConcat(1, a + b + c + d + e, f);
    RunConcat(1, a + b + c + d + e + f, g);
    assert a + b + c + d + e + f + g
      == [9, 18, 14, 20, 10, 21, 22, 0, 18, 21, 19, 0, 22, 22, 23, 0, 11, 0] + [7, 5, 9, 7, 16, 1, 6, 27];
  }

  /** The checksum of BIP 380's example descriptor raw(deadbeef) is 89f8spxm. */
  lemma KnownChecksum()
    ensures DescsumCreate("raw(deadbeef)") == Returned("raw(deadbeef)#89f8spxm")
  {
    hide Run, InAlphabet, Symbols, ChecksumText;
    ExampleExpands();
    ExampleRuns();
    ChecksumUnique(Symbols("raw(deadbeef)"), [7, 5, 9, 7, 16, 1, 6, 27]);
    ExampleText();
    assert "raw(deadbeef)" + "#" + "89f8spxm" == "raw(deadbeef)#89f8spxm";
  }

  lemma ExampleText()
    ensures ChecksumText([7, 5, 9, 7, 16, 1, 6, 27]) == "89f8spxm"
  {
  }
}
