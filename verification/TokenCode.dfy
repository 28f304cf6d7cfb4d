/** The token's bytecode, section by section, and where each instruction stands. */
module TokenCode {
  import opened Bytes
  import opened Evm
  import opened EvmInvariants
  import opened Abi

  /** PUSH32 2^224 */
  const PUSH_SHIFT: ByteSeq := [0x7F, 0x00, 0x00, 0x00, 0x01] + Zeros(28)
  const LOAD_SELECTOR: ByteSeq := [0x60, 0x00, 0x35, 0x04]
  const TRY_TRANSFER: ByteSeq := [0x80, 0x63, 0xA9, 0x05, 0x9C, 0xBB, 0x14, 0x60, 0x3F, 0x57]
  const TRY_BALANCE: ByteSeq := [0x80, 0x63, 0x70, 0xA0, 0x82, 0x31, 0x14, 0x60, 0x62, 0x57]
  const NO_MATCH: ByteSeq := [0x50, 0x60, 0x00, 0x60, 0x00, 0xFD]
  const LOAD_ARGUMENTS: ByteSeq := [0x5B, 0x50, 0x60, 0x04, 0x35, 0x60, 0x24, 0x35, 0x33, 0x80, 0x54]
  const CHECK_BALANCE: ByteSeq := [0x82, 0x81, 0x10, 0x60, 0x5C, 0x57]
  const DEBIT: ByteSeq := [0x82, 0x90, 0x03, 0x90, 0x55]
  const CREDIT: ByteSeq := [0x81, 0x54, 0x01, 0x81, 0x55, 0x50, 0x00]
  const REFUSE: ByteSeq := [0x5B, 0x60, 0x00, 0x60, 0x00, 0xFD]
  const BALANCE_OF: ByteSeq := [0x5B, 0x50, 0x60, 0x04, 0x35, 0x54, 0x60, 0x00, 0x52, 0x60, 0x20, 0x60, 0x00, 0xF3]

  const ENTRY: ByteSeq := PUSH_SHIFT + LOAD_SELECTOR + TRY_TRANSFER + TRY_BALANCE + NO_MATCH
  const TRANSFER: ByteSeq := LOAD_ARGUMENTS + CHECK_BALANCE + DEBIT + CREDIT

  const TOKEN_RUNTIME_BYTECODE: ByteSeq := ENTRY + TRANSFER + REFUSE + BALANCE_OF

  const TRANSFER_SELECTOR: nat := 0xa9059cbb
  const BALANCE_SELECTOR: nat := 0x70a08231

  /** Code made of the token's sections. */
  ghost predicate IsToken(c: ByteSeq) {
    && |c| == 112
    && Section(c, 0, PUSH_SHIFT)
    && Section(c, 33, LOAD_SELECTOR)
    && Section(c, 37, TRY_TRANSFER)
    && Section(c, 47, TRY_BALANCE)
    && Section(c, 57, NO_MATCH)
    && Section(c, 63, LOAD_ARGUMENTS)
    && Section(c, 74, CHECK_BALANCE)
    && Section(c, 80, DEBIT)
    && Section(c, 85, CREDIT)
    && Section(c, 92, REFUSE)
    && Section(c, 98, BALANCE_OF)
  }

  lemma EntrySections()
    ensures Section(ENTRY, 0, PUSH_SHIFT) && Section(ENTRY, 33, LOAD_SELECTOR) && Section(ENTRY, 37, TRY_TRANSFER)
    ensures Section(ENTRY, 47, TRY_BALANCE) && Section(ENTRY, 57, NO_MATCH) && |ENTRY| == 63
  {}

  lemma TransferSections()
    ensures Section(TRANSFER, 0, LOAD_ARGUMENTS) && Section(TRANSFER, 11, CHECK_BALANCE)
    ensures Section(TRANSFER, 17, DEBIT) && Section(TRANSFER, 22, CREDIT) && |TRANSFER| == 29
  {}

  lemma LastSections()
    ensures |REFUSE| == 6 && |BALANCE_OF| == 14
  {}

  lemma TokenParts()
    ensures var c := TOKEN_RUNTIME_BYTECODE;
      && Section(c, 0, ENTRY) && Section(c, 63, TRANSFER) && Section(c, 92, REFUSE) && Section(c, 98, BALANCE_OF)
      && |c| == 112
  {
    EntrySections();
    TransferSections();
    hide ENTRY, TRANSFER, REFUSE, BALANCE_OF;
    LastSections();
  }

  lemma TokenIsToken()
    ensures IsToken(TOKEN_RUNTIME_BYTECODE)
  {
    TokenParts();
    EntrySections();
    TransferSections();
    hide Section, ENTRY, TRANSFER, TOKEN_RUNTIME_BYTECODE, PUSH_SHIFT, LOAD_SELECTOR,
      TRY_TRANSFER, TRY_BALANCE, NO_MATCH,
      LOAD_ARGUMENTS, CHECK_BALANCE, DEBIT, CREDIT, REFUSE, BALANCE_OF;
    var c := TOKEN_RUNTIME_BYTECODE;
    SectionOfSection(c, 0, ENTRY, 0, PUSH_SHIFT);
    SectionOfSection(c, 0, ENTRY, 33, LOAD_SELECTOR);
    SectionOfSection(c, 0, ENTRY, 37, TRY_TRANSFER);
    SectionOfSection(c, 0, ENTRY, 47, TRY_BALANCE);
    SectionOfSection(c, 0, ENTRY, 57, NO_MATCH);
    SectionOfSection(c, 63, TRANSFER, 0, LOAD_ARGUMENTS);
    SectionOfSection(c, 63, TRANSFER, 11, CHECK_BALANCE);
    SectionOfSection(c, 63, TRANSFER, 17, DEBIT);
    SectionOfSection(c, 63, TRANSFER, 22, CREDIT);
  }

  // Each section's bytes, at the offsets they have in the code.

  lemma PushShiftBytes(c: ByteSeq)
    requires IsToken(c)
    ensures |c| == 112 && c[0] == 0x7F && FromBE(Window(c, 1, 32)) == SelectorShift()
  {
    hide FromBE, Pow256;
    assert c[0] == c[0..33][0];
    var w := Window(c, 1, 32);
    forall i | 0 <= i < 32 ensures w[i] == PUSH_SHIFT[1 + i] { assert c[1 + i] == c[0..33][1 + i]; }
    assert w == [0, 0, 0, 1] + Zeros(28);
    FromBEConcat([0, 0, 0, 1], Zeros(28));
    FromBEZeros(28);
    FromBE4(0, 0, 0, 1);
  }

  lemma FromBE4(a: Byte, b: Byte, c: Byte, d: Byte)
    ensures FromBE([a, b, c, d]) == ((a * 256 + b) * 256 + c) * 256 + d
  {
    assert [a, b, c, d][..3] == [a, b, c];
    assert [a, b, c][..2] == [a, b];
    assert [a, b][..1] == [a];
    assert [a][..0] == [];
    assert FromBE([a]) == a;
    assert FromBE([a, b]) == a * 256 + b;
    assert FromBE([a, b, c]) == (a * 256 + b) * 256 + c;
  }

  lemma LoadSelectorBytes(c: ByteSeq)
    requires IsToken(c)
    ensures |c| == 112 && c[33] == 0x60 && c[34] == 0x00 && c[35] == 0x35 && c[36] == 0x04
  {
    forall i | 33 <= i < 37 ensures c[i] == LOAD_SELECTOR[i - 33] { assert c[i] == c[33..37][i - 33]; }
  }

  lemma TryTransferBytes(c: ByteSeq)
    requires IsToken(c)
    ensures |c| == 112 && c[37] == 0x80 && c[38] == 0x63 && c[43] == 0x14 && c[44] == 0x60 && c[45] == 0x3F
        && c[46] == 0x57
    ensures FromBE(Window(c, 39, 4)) == TRANSFER_SELECTOR
  {
    hide FromBE;
    forall i | 37 <= i < 47 ensures c[i] == TRY_TRANSFER[i - 37] { assert c[i] == c[37..47][i - 37]; }
    assert Window(c, 39, 4) == [0xA9, 0x05, 0x9C, 0xBB];
    FromBE4(0xA9, 0x05, 0x9C, 0xBB);
  }

  lemma TryBalanceBytes(c: ByteSeq)
    requires IsToken(c)
    ensures |c| == 112 && c[47] == 0x80 && c[48] == 0x63 && c[53] == 0x14 && c[54] == 0x60 && c[55] == 0x62
        && c[56] == 0x57
    ensures FromBE(Window(c, 49, 4)) == BALANCE_SELECTOR
  {
    hide FromBE;
    forall i | 47 <= i < 57 ensures c[i] == TRY_BALANCE[i - 47] { assert c[i] == c[47..57][i - 47]; }
    assert Window(c, 49, 4) == [0x70, 0xA0, 0x82, 0x31];
    FromBE4(0x70, 0xA0, 0x82, 0x31);
  }

  lemma NoMatchBytes(c: ByteSeq)
    requires IsToken(c)
    ensures |c| == 112 && c[57] == 0x50 && c[58] == 0x60 && c[59] == 0x00 && c[60] == 0x60 && c[61] == 0x00
        && c[62] == 0xFD
  {
    forall i | 57 <= i < 63 ensures c[i] == NO_MATCH[i - 57] { assert c[i] == c[57..63][i - 57]; }
  }

  lemma LoadArgumentsBytes(c: ByteSeq)
    requires IsToken(c)
    ensures |c| == 112 && c[63] == 0x5B && c[64] == 0x50 && c[65] == 0x60 && c[66] == 0x04 && c[67] == 0x35
        && c[68] == 0x60 && c[69] == 0x24
         && c[70] == 0x35 && c[71] == 0x33 && c[72] == 0x80 && c[73] == 0x54
  {
    forall i | 63 <= i < 74 ensures c[i] == LOAD_ARGUMENTS[i - 63] { assert c[i] == c[63..74][i - 63]; }
  }

  lemma CheckBalanceBytes(c: ByteSeq)
    requires IsToken(c)
    ensures |c| == 112 && c[74] == 0x82 && c[75] == 0x81 && c[76] == 0x10 && c[77] == 0x60 && c[78] == 0x5C
        && c[79] == 0x57
  {
    forall i | 74 <= i < 80 ensures c[i] == CHECK_BALANCE[i - 74] { assert c[i] == c[74..80][i - 74]; }
  }

  lemma DebitBytes(c: ByteSeq)
    requires IsToken(c)
    ensures |c| == 112 && c[80] == 0x82 && c[81] == 0x90 && c[82] == 0x03 && c[83] == 0x90 && c[84] == 0x55
  {
    forall i | 80 <= i < 85 ensures c[i] == DEBIT[i - 80] { assert c[i] == c[80..85][i - 80]; }
  }

  lemma CreditBytes(c: ByteSeq)
    requires IsToken(c)
    ensures |c| == 112 && c[85] == 0x81 && c[86] == 0x54 && c[87] == 0x01 && c[88] == 0x81 && c[89] == 0x55
        && c[90] == 0x50 && c[91] == 0x00
  {
    forall i | 85 <= i < 92 ensures c[i] == CREDIT[i - 85] { assert c[i] == c[85..92][i - 85]; }
  }

  lemma RefuseBytes(c: ByteSeq)
    requires IsToken(c)
    ensures |c| == 112 && c[92] == 0x5B && c[93] == 0x60 && c[94] == 0x00 && c[95] == 0x60 && c[96] == 0x00
        && c[97] == 0xFD
  {
    forall i | 92 <= i < 98 ensures c[i] == REFUSE[i - 92] { assert c[i] == c[92..98][i - 92]; }
  }

  lemma BalanceOfBytes(c: ByteSeq)
    requires IsToken(c)
    ensures |c| == 112 && c[98] == 0x5B && c[99] == 0x50 && c[100] == 0x60 && c[101] == 0x04 && c[102] == 0x35
        && c[103] == 0x54 && c[104] == 0x60 && c[105] == 0x00 && c[106] == 0x52 && c[107] == 0x60
        && c[108] == 0x20 && c[109] == 0x60 && c[110] == 0x00 && c[111] == 0xF3
  {
    forall i | 98 <= i < 112 ensures c[i] == BALANCE_OF[i - 98] { assert c[i] == c[98..112][i - 98]; }
  }

  lemma StartsThroughDispatcher(c: ByteSeq)
    requires IsToken(c) && InstructionStart(c, 0)
    ensures InstructionStart(c, 63)
  {
    hide FromBE, InstructionStart, IsToken;
    PushShiftBytes(c);
    LoadSelectorBytes(c);
    TryTransferBytes(c);
    TryBalanceBytes(c);
    NoMatchBytes(c);
    StartAfter(c, 0); StartAfter(c, 33); StartAfter(c, 35); StartAfter(c, 36); StartAfter(c, 37);
    StartAfter(c, 38); StartAfter(c, 43); StartAfter(c, 44); StartAfter(c, 46); StartAfter(c, 47);
    StartAfter(c, 48); StartAfter(c, 53); StartAfter(c, 54); StartAfter(c, 56); StartAfter(c, 57);
    StartAfter(c, 58); StartAfter(c, 60); StartAfter(c, 62);
  }

  lemma StartsThroughTransfer(c: ByteSeq)
    requires IsToken(c) && InstructionStart(c, 63)
    ensures InstructionStart(c, 92)
  {
    hide FromBE, InstructionStart, IsToken;
    LoadArgumentsBytes(c);
    CheckBalanceBytes(c);
    DebitBytes(c);
    CreditBytes(c);
    StartAfter(c, 63); StartAfter(c, 64); StartAfter(c, 65); StartAfter(c, 67); StartAfter(c, 68);
    StartAfter(c, 70); StartAfter(c, 71); StartAfter(c, 72); StartAfter(c, 73); StartAfter(c, 74);
    StartAfter(c, 75); StartAfter(c, 76); StartAfter(c, 77); StartAfter(c, 79); StartAfter(c, 80);
    StartAfter(c, 81); StartAfter(c, 82); StartAfter(c, 83); StartAfter(c, 84); StartAfter(c, 85);
    StartAfter(c, 86); StartAfter(c, 87); StartAfter(c, 88); StartAfter(c, 89); StartAfter(c, 90);
    StartAfter(c, 91);
  }

  lemma StartsThroughRefuse(c: ByteSeq)
    requires IsToken(c) && InstructionStart(c, 92)
    ensures InstructionStart(c, 98)
  {
    hide FromBE, InstructionStart, IsToken;
    RefuseBytes(c);
    StartAfter(c, 92); StartAfter(c, 93); StartAfter(c, 95); StartAfter(c, 97);
  }

  /** The three handlers are legal jump targets. */
  lemma HandlersAreJumpDests(c: ByteSeq)
    requires IsToken(c)
    ensures 63 in JumpDests(c) && 92 in JumpDests(c) && 98 in JumpDests(c)
  {
    hide IsToken, JumpDests, InstructionStart;
    StartAtZero();
    StartsThroughDispatcher(c);
    StartsThroughTransfer(c);
    StartsThroughRefuse(c);
    LoadArgumentsBytes(c);
    RefuseBytes(c);
    BalanceOfBytes(c);
    JumpDestsExact(c, 63);
    JumpDestsExact(c, 92);
    JumpDestsExact(c, 98);
  }
}
