/** The Hack code tables (06-assembler/code.py): the binary fields of a
    C-instruction for every `dest`, `comp` and `jump` mnemonic the
    assembler accepts, and what those bits select on the Hack CPU. */
module HackCode {
  import opened Wrappers

  /** `CODES['dest']`; `None` stands for an instruction without `=`. */
  const DestTable: map<Option<string>, string> := map[
    None := "000",
    Some("M") := "001",
    Some("D") := "010",
    Some("MD") := "011",
    Some("A") := "100",
    Some("AM") := "101",
    Some("AD") := "110",
    Some("AMD") := "111"
  ]

  /** `CODES['comp']`: the a-bit followed by the six ALU control bits. */
  const CompTable: map<string, string> := map[
    "0" := "0101010",
    "1" := "0111111",
    "-1" := "0111010",
    "D" := "0001100",
    "A" := "0110000",
    "!D" := "0001101",
    "!A" := "0110001",
    "-D" := "0001111",
    "-A" := "0110011",
    "D+1" := "0011111",
    "A+1" := "0110111",
    "D-1" := "0001110",
    "A-1" := "0110010",
    "D+A" := "0000010",
    "D-A" := "0010011",
    "A-D" := "0000111",
    "D&A" := "0000000",
    "D|A" := "0010101",
    "M" := "1110000",
    "!M" := "1110001",
    "-M" := "1110011",
    "M+1" := "1110111",
    "M-1" := "1110010",
    "D+M" := "1000010",
    "D-M" := "1010011",
    "M-D" := "1000111",
    "D&M" := "1000000",
    "D|M" := "1010101"
  ]

  /** `CODES['jump']`; `None` stands for an instruction without `;`. */
  const JumpTable: map<Option<string>, string> := map[
    None := "000",
    Some("JGT") := "001",
    Some("JEQ") := "010",
    Some("JGE") := "011",
    Some("JLT") := "100",
    Some("JNE") := "101",
    Some("JLE") := "110",
    Some("JMP") := "111"
  ]

  predicate IsBits(s: string) {
    forall i :: 0 <= i < |s| ==> s[i] == '0' || s[i] == '1'
  }

  function Bit(b: bool): char {
    if b then '1' else '0'
  }

  /** `Code.dest`. */
  function Dest(mnemonic: Option<string>): (r: string)
    requires mnemonic in DestTable
    ensures |r| == 3 && IsBits(r)
  {
    DestTable[mnemonic]
  }

  /** `Code.comp`. */
  function Comp(mnemonic: string): (r: string)
    requires mnemonic in CompTable
    ensures |r| == 7 && IsBits(r)
  {
    CompTable[mnemonic]
  }

  /** `Code.jump`. */
  function Jump(mnemonic: Option<string>): (r: string)
    requires mnemonic in JumpTable
    ensures |r| == 3 && IsBits(r)
  {
    JumpTable[mnemonic]
  }

  // What the bits mean on the Hack CPU, defined independently of the tables.

  /** The destination bits name the registers stored to: A, D, M in order. */
  lemma DestBitsNameRegisters(m: Option<string>)
    requires m in DestTable
    ensures Dest(m) == [Bit('A' in m.GetOr("")), Bit('D' in m.GetOr("")), Bit('M' in m.GetOr(""))]
  {
  }

  /** Whether a jump mnemonic jumps, given the sign of the ALU output. */
  function Jumps(m: Option<string>, out: int): bool {
    match m
    case None => false
    case Some(j) =>
      if j == "JGT" then out > 0
      else if j == "JEQ" then out == 0
      else if j == "JGE" then out >= 0
      else if j == "JLT" then out < 0
      else if j == "JNE" then out != 0
      else if j == "JLE" then out <= 0
      else j == "JMP"
  }

  /** The jump bits say whether to jump on a negative, zero and positive
      output, in that order. */
  lemma JumpBitsNameConditions(m: Option<string>)
    requires m in JumpTable
    ensures Jump(m) == [Bit(Jumps(m, -1)), Bit(Jumps(m, 0)), Bit(Jumps(m, 1))]
  {
  }

  /** The a-bit is set exactly when the mnemonic reads `M`. */
  lemma CompMemoryBit(c: string)
    requires c in CompTable
    ensures Comp(c)[0] == Bit('M' in c)
  {
  }

  /** An instruction without `;` never jumps. */
  lemma NoJump()
    ensures None in JumpTable && Jump(None) == "000"
  {
  }

  /** A two-operand comp with its operands swapped. */
  function Commute(c: string): (r: string)
    ensures |r| == |c|
  {
    if |c| == 3 then [c[2], c[1], c[0]] else c
  }

  /** The commuted spellings the VM code writers use (`A+D`, `A&D`, `A|D`,
      `M+D`) are not keys of the table, though each is the mirror image of one
      that is, with a commutative operator. */
  lemma CommutedSpellingsRejected(c: string)
    requires c in ["A+D", "A&D", "A|D", "M+D"]
    ensures c !in CompTable
    ensures Commute(c) in CompTable && c[1] in "+&|"
  {
  }
}
