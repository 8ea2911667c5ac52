"""Compares the tables listed in FastCRC_tables.h with the rules of Crc32.dfy and Crc16.dfy.

Usage: python3 compare_tables.py <path to FastCRC_tables.h>
"""

import re
import sys

# Table name, width in bits, polynomial, reflected or byte-swapped.
RULES = [
    ("crc_table_crc32_big", 32, 0xEDB88320, True),
    ("crc_table_cksum_big", 32, 0x04C11DB7, False),
    ("crc_table_modbus", 16, 0xA001, True),
    ("crc_table_kermit", 16, 0x8408, True),
    ("crc_table_x25", 16, 0x8408, True),
    ("crc_table_ccitt", 16, 0x1021, False),
    ("crc_table_xmodem", 16, 0x1021, False),
]


def step(poly, s):
    """One step of the reflected register."""
    return (s >> 1) ^ (poly if s & 1 else 0)


def high_step(poly, s, width):
    """One step of the unreflected register."""
    top = s >> (width - 1) & 1
    return (s << 1) % (1 << width) ^ (poly if top else 0)


def first_slice(b, width, poly, reflected):
    s = b if reflected else b << (width - 8)
    for _ in range(8):
        s = step(poly, s) if reflected else high_step(poly, s, width)
    return s if reflected else int.from_bytes(s.to_bytes(width // 8, "big"), "little")


def filled(width, poly, reflected):
    """Four slices, each one turn further than the one before."""
    first = [first_slice(b, width, poly, reflected) for b in range(256)]
    table = list(first)
    for i in range(256, 1024):
        s = table[i - 256]
        table.append(first[s & 0xFF] ^ (s >> 8))
    return table


def listed(text, name):
    body = re.search(name + r"\[1024\][^{]*\{([^}]*)\}", text).group(1)
    return [int(n, 16) for n in re.findall(r"0[xX][0-9a-fA-F]+", body)]


def main():
    text = open(sys.argv[1], errors="replace").read()
    differing = [name for name, width, poly, reflected in RULES
                 if listed(text, name) != filled(width, poly, reflected)]
    for name in differing:
        print(name, "differs from its rule")
    sys.exit(1 if differing else 0)


if __name__ == "__main__":
    main()
