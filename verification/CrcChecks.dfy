/**
 The rules that generate the CRC tables and the bitwise CRCs, held against constants that the source
 lists: entries of each table, and the check value of CRC-32, which is what it returns for the nine
 digits "123456789".
 */
module CrcChecks {
  import opened CrcSlices
  import opened CrcBits
  import opened ByteOrder
  import opened Crc32
  import opened Crc16

  // ---------- Entries of the tables ----------

  /** crc_table_crc32_big[1] and [0x80]. */
  lemma Crc32Entries()
    ensures Entry(Crc32Table(), 0, 1) == 0x7707_3096 && Entry(Crc32Table(), 0, 0x80) == 0xedb8_8320
  {
    Crc32TableIsReflected();
    assert Steps(CRC32_POLY, 1, 8) == 0x7707_3096;
    assert Steps(CRC32_POLY, 0x80, 8) == 0xedb8_8320;
  }

  /** crc_table_cksum_big[1]. */
  lemma CksumEntry()
    ensures Entry(CksumTable(), 0, 1) == 0xb71d_c104
  {
    CksumTableIsSwapped();
    assert Top(1) == 0x0100_0000;
    assert HighSteps(CKSUM_POLY, 0x0100_0000, 8) == 0x04c1_1db7;
  }

  /** crc_table_modbus[1] and [0x80]. */
  lemma ModbusEntries()
    ensures ReflectedTable(MODBUS_POLY)(1) == 0xc0c1 && ReflectedTable(MODBUS_POLY)(0x80) == 0xa001
  {
    ReflectedTableIs(MODBUS_POLY);
    var t := Widen(ReflectedTable(MODBUS_POLY));
    assert Steps(0xa001, 1, 8) == 0xc0c1 && Steps(0xa001, 0x80, 8) == 0xa001;
    assert Entry(t, 0, 1) == 0xc0c1 && Entry(t, 0, 0x80) == 0xa001;
  }

  /** crc_table_kermit[1] and [0x80]. */
  lemma KermitEntries()
    ensures ReflectedTable(KERMIT_POLY)(1) == 0x1189 && ReflectedTable(KERMIT_POLY)(0x80) == 0x8408
  {
    ReflectedTableIs(KERMIT_POLY);
    var t := Widen(ReflectedTable(KERMIT_POLY));
    assert Steps(0x8408, 1, 8) == 0x1189 && Steps(0x8408, 0x80, 8) == 0x8408;
    assert Entry(t, 0, 1) == 0x1189 && Entry(t, 0, 0x80) == 0x8408;
  }

  /** crc_table_x25[1] and [0x80]. */
  lemma X25Entries()
    ensures ReflectedTable(X25_POLY)(1) == 0x1189 && ReflectedTable(X25_POLY)(0x80) == 0x8408
  {
    ReflectedTableIs(X25_POLY);
    var t := Widen(ReflectedTable(X25_POLY));
    assert Steps(0x8408, 1, 8) == 0x1189 && Steps(0x8408, 0x80, 8) == 0x8408;
    assert Entry(t, 0, 1) == 0x1189 && Entry(t, 0, 0x80) == 0x8408;
  }

  /** crc_table_ccitt[1]. */
  lemma CcittEntry()
    ensures Entry(Widen(SwappedTable(CCITT_POLY)), 0, 1) == 0x2110
  {
    SwappedTableIs(CCITT_POLY);
    assert Top(1) == 0x0100_0000;
    assert HighSteps(0x1021_0000, 0x0100_0000, 8) == 0x1021_0000;
  }

  /** crc_table_xmodem[1]. */
  lemma XmodemEntry()
    ensures Entry(Widen(SwappedTable(XMODEM_POLY)), 0, 1) == 0x2110
  {
    SwappedTableIs(XMODEM_POLY);
    assert Top(1) == 0x0100_0000;
    assert HighSteps(0x1021_0000, 0x0100_0000, 8) == 0x1021_0000;
  }

  // ---------- The check value of CRC-32 ----------

  /** The characters '1' to '9'. */
  const DIGITS: seq<bv8> := [0x31, 0x32, 0x33, 0x34, 0x35, 0x36, 0x37, 0x38, 0x39]

  /** The register after `n` digits. */
  predicate After(n: nat, c: bv32)
    requires n <= 9
  {
    BitCrc(CRC32_POLY, 0xffff_ffff, DIGITS[..n]) == c
  }

  lemma NextDigit(n: nat, c: bv32, b: bv32, r: bv32)
    requires n < 9 && After(n, c) && DIGITS[n] as bv32 == b && FeedBits(CRC32_POLY, c, b, 8) == r
    ensures After(n + 1, r)
  {
    assert DIGITS[..n + 1][..n] == DIGITS[..n];
  }

  lemma Digit1()
    ensures After(1, 0x7c23_1048)
  {
    assert DIGITS[..0] == [];
    NextDigit(0, 0xffff_ffff, 0x31, 0x7c23_1048);
  }

  lemma Digit2()
    requires After(1, 0x7c23_1048)
    ensures After(2, 0xb0ac_bb32)
  {
    NextDigit(1, 0x7c23_1048, 0x32, 0xb0ac_bb32);
  }

  lemma Digit3()
    requires After(2, 0xb0ac_bb32)
    ensures After(3, 0x77b7_9c2d)
  {
    NextDigit(2, 0xb0ac_bb32, 0x33, 0x77b7_9c2d);
  }

  lemma Digit4()
    requires After(3, 0x77b7_9c2d)
    ensures After(4, 0x641c_1f5c)
  {
    NextDigit(3, 0x77b7_9c2d, 0x34, 0x641c_1f5c);
  }

  lemma Digit5()
    requires After(4, 0x641c_1f5c)
    ensures After(5, 0x340a_c5e3)
  {
    NextDigit(4, 0x641c_1f5c, 0x35, 0x340a_c5e3);
  }

  lemma Digit6()
    requires After(5, 0x340a_c5e3)
    ensures After(6, 0xf68d_2c9e)
  {
    NextDigit(5, 0x340a_c5e3, 0x36, 0xf68d_2c9e);
  }

  lemma Digit7()
    requires After(6, 0xf68d_2c9e)
    ensures After(7, 0xaffc_9660)
  {
    NextDigit(6, 0xf68d_2c9e, 0x37, 0xaffc_9660);
  }

  lemma Digit8()
    requires After(7, 0xaffc_9660)
    ensures After(8, 0x651f_2550)
  {
    NextDigit(7, 0xaffc_9660, 0x38, 0x651f_2550);
  }

  lemma Digit9()
    requires After(8, 0x651f_2550)
    ensures After(9, 0x340b_c6d9)
  {
    NextDigit(8, 0x651f_2550, 0x39, 0x340b_c6d9);
  }

  method Crc32OfDigits(addr: nat) returns (crc: bv32)
    ensures crc == 0xcbf4_3926
  {
    var engine := new FastCRC32();
    crc := engine.Crc32(addr, DIGITS);
    Crc32Digits();
  }

  lemma Crc32Digits()
    ensures !BitCrc(CRC32_POLY, 0xffff_ffff, DIGITS) == 0xcbf4_3926
  {
    Digit1();
    Digit2();
    Digit3();
    Digit4();
    Digit5();
    Digit6();
    Digit7();
    Digit8();
    Digit9();
    assert DIGITS[..9] == DIGITS;
  }
}
