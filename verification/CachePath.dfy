/** The file path of a cached query (`IwsConfig.IwsCacheFilePath`): three folder levels of 256. */
module CachePath {
  import opened Collections
  import Decimal

  predicate IsInt32(id: int) {
    -0x8000_0000 <= id < 0x8000_0000
  }

  /** The two's complement value that hexadecimal formatting shows. */
  function Unsigned(id: int): (u: int)
    requires IsInt32(id)
    ensures 0 <= u < 0x1_0000_0000
  {
    if id < 0 then id + 0x1_0000_0000 else id
  }

  /** `(id >> 8 * k) & 0xff` for k = 3, 2, 1; the shift keeps the sign, as flooring division does. */
  function Shifted(id: int, divisor: int): (b: int)
    requires divisor > 0
    ensures 0 <= b < 256
  {
    (id / divisor) % 256
  }

  function HexDigit(d: int): char
    requires 0 <= d < 16
  {
    if d < 10 then '0' + d as char else 'a' + (d - 10) as char
  }

  function HexValue(c: char): int {
    if '0' <= c <= '9' then c as int - '0' as int else c as int - 'a' as int + 10
  }

  function Hex2(b: int): (s: string)
    requires 0 <= b < 256
    ensures |s| == 2 && HexValue(s[0]) * 16 + HexValue(s[1]) == b
  {
    [HexDigit(b / 16), HexDigit(b % 16)]
  }

  /** The format `x8`. */
  function Hex8(u: int): (s: string)
    requires 0 <= u < 0x1_0000_0000
    ensures |s| == 8
  {
    Hex2(u / 0x100_0000) + Hex2(u / 0x1_0000 % 256) + Hex2(u / 0x100 % 256) + Hex2(u % 256)
  }

  function Folder(root: string, id: int): (s: string)
    requires IsInt32(id)
    ensures |s| == |root| + 9
  {
    root + "\\" + Hex2(Shifted(id, 0x100_0000)) + "\\" + Hex2(Shifted(id, 0x1_0000)) + "\\" + Hex2(Shifted(id, 0x100))
  }

  function FilePath(root: string, id: int): string
    requires IsInt32(id)
  {
    Folder(root, id) + "\\" + Hex8(Unsigned(id)) + "_" + Decimal.Text(id) + ".json.gzip"
  }

  // ---------- reading the ID back ----------

  function Byte(s: string, i: nat): int
    requires i + 2 <= |s|
  {
    HexValue(s[i]) * 16 + HexValue(s[i + 1])
  }

  /** The ID that a path under a root of the given length names. */
  function IdOf(rootLength: nat, path: string): int
    requires rootLength + 18 <= |path|
  {
    var u := Word(path[rootLength + 10..rootLength + 18]);
    if u >= 0x8000_0000 then u - 0x1_0000_0000 else u
  }

  /** Four bytes of text, most significant first. */
  function Word(h: string): int
    requires |h| == 8
  {
    ((Byte(h, 0) * 256 + Byte(h, 2)) * 256 + Byte(h, 4)) * 256 + Byte(h, 6)
  }

  lemma WordOf(a: string, b: string, c: string, d: string)
    requires |a| == |b| == |c| == |d| == 2
    ensures Word(a + b + c + d) == ((Byte(a, 0) * 256 + Byte(b, 0)) * 256 + Byte(c, 0)) * 256 + Byte(d, 0)
  {
    var h := a + b + c + d;
    assert h[0] == a[0] && h[1] == a[1] && h[2] == b[0] && h[3] == b[1];
    assert h[4] == c[0] && h[5] == c[1] && h[6] == d[0] && h[7] == d[1];
  }

  lemma Bytes(u: int)
    requires 0 <= u < 0x1_0000_0000
    ensures u == ((u / 0x100_0000 * 256 + u / 0x1_0000 % 256) * 256 + u / 0x100 % 256) * 256 + u % 256
  {
  }

  lemma Hex8Word(u: int)
    requires 0 <= u < 0x1_0000_0000
    ensures Word(Hex8(u)) == u
  {
    WordOf(Hex2(u / 0x100_0000), Hex2(u / 0x1_0000 % 256), Hex2(u / 0x100 % 256), Hex2(u % 256));
    Bytes(u);
  }

  lemma Middle(front: string, h: string, tail: string)
    ensures (front + h + tail)[|front|..|front| + |h|] == h
  {
  }

  /** A path of a folder and a name that begins with eight characters. */
  lemma NameParts(f: string, hex: string, tail: string)
    requires |hex| == 8
    ensures var path, n := f + "\\" + hex + tail, |f|;
      && |path| >= n + 9 && path[..n] == f && path[n] == '\\' && path[n + 1..n + 9] == hex && path[n + 9..] == tail
  {
    var path := f + "\\" + hex + tail;
    Middle(f + "\\", hex, tail);
    assert path == f + ("\\" + hex + tail);
  }

  lemma PathParts(root: string, id: int)
    requires IsInt32(id)
    ensures FilePath(root, id) == Folder(root, id) + "\\" + Hex8(Unsigned(id)) + ("_" + Decimal.Text(id) + ".json.gzip")
  {
  }

  /** The ID can be read back from the path, for every 32-bit ID and every root. */
  lemma PathNamesId(root: string, id: int)
    requires IsInt32(id)
    ensures |FilePath(root, id)| >= |root| + 18
    ensures IdOf(|root|, FilePath(root, id)) == id
  {
    PathParts(root, id);
    NameParts(Folder(root, id), Hex8(Unsigned(id)), "_" + Decimal.Text(id) + ".json.gzip");
    Hex8Word(Unsigned(id));
  }

  lemma FolderShape(root: string, id: int)
    requires IsInt32(id)
    ensures var f, n := Folder(root, id), |root|;
      root <= f && f[n] == f[n + 3] == f[n + 6] == '\\'
  {
    var f, n := Folder(root, id), |root|;
    var a, b, c := Hex2(Shifted(id, 0x100_0000)), Hex2(Shifted(id, 0x1_0000)), Hex2(Shifted(id, 0x100));
    assert f == root + ("\\" + a + "\\" + b + "\\" + c);
    assert f[..n] == root;
  }

  /** The path lies under the root, three folders of two digits deep, and ends with the decimal ID and the extension. */
  lemma PathShape(root: string, id: int)
    requires IsInt32(id)
    ensures var path, n := FilePath(root, id), |root|;
      && |path| >= n + 18 && root <= path
      && path[n] == path[n + 3] == path[n + 6] == path[n + 9] == '\\'
      && path[n + 18..] == "_" + Decimal.Text(id) + ".json.gzip"
  {
    FolderShape(root, id);
    PathParts(root, id);
    NameParts(Folder(root, id), Hex8(Unsigned(id)), "_" + Decimal.Text(id) + ".json.gzip");
    Under(root, Folder(root, id), FilePath(root, id));
  }

  lemma Under(root: string, f: string, path: string)
    requires root <= f && |f| == |root| + 9 <= |path| && path[..|f|] == f
    ensures var n := |root|; root <= path && path[n] == f[n] && path[n + 3] == f[n + 3] && path[n + 6] == f[n + 6]
  {
    assert root == f[..|root|] == path[..|root|];
  }

  /** So no two 32-bit IDs share a file. */
  lemma PathInjective(root: string, id: int, id': int)
    requires IsInt32(id) && IsInt32(id') && FilePath(root, id) == FilePath(root, id')
    ensures id == id'
  {
    PathNamesId(root, id);
    PathNamesId(root, id');
  }

  // ---------- folders ----------

  lemma ShiftedNegative(id: int, divisor: int, rest: int)
    requires divisor > 0 && rest * divisor == 0x1_0000_0000
    ensures (id + 0x1_0000_0000) / divisor == id / divisor + rest
  {
    var q, r := id / divisor, id % divisor;
    assert id == q * divisor + r;
    assert (q + rest) * divisor == q * divisor + rest * divisor;
    QuotientUnique(id + 0x1_0000_0000, divisor, q + rest, r);
  }

  lemma QuotientUnique(x: int, d: int, q: int, r: int)
    requires d > 0 && 0 <= r < d && x == q * d + r
    ensures x / d == q
  {
    var q' := x / d;
    if q' > q {
      ProductApart(q, q', d);
    } else if q' < q {
      ProductApart(q', q, d);
    }
  }

  lemma ProductApart(a: int, b: int, d: int)
    requires a < b && d > 0
    ensures b * d >= a * d + d
  {
    var k := b - a - 1;
    assert k * d >= 0;
    assert b * d == k * d + (a * d + d);
  }

  lemma SameRemainder(q: int, k: int)
    ensures (q + 256 * k) % 256 == q % 256
  {
  }

  lemma ShiftedByte(id: int, divisor: int, rest: int)
    requires IsInt32(id) && divisor > 0 && rest * divisor == 0x1_0000_0000 && rest % 256 == 0
    ensures Shifted(id, divisor) == Unsigned(id) / divisor % 256
  {
    if id < 0 {
      ShiftedNegative(id, divisor, rest);
      SameRemainder(id / divisor, rest / 256);
    }
  }

  /** The signed shifts pick the bytes that the file name shows. */
  lemma ShiftedBytes(id: int)
    requires IsInt32(id)
    ensures var u := Unsigned(id);
      && Shifted(id, 0x100_0000) == u / 0x100_0000
      && Shifted(id, 0x1_0000) == u / 0x1_0000 % 256
      && Shifted(id, 0x100) == u / 0x100 % 256
  {
    ShiftedByte(id, 0x100_0000, 0x100);
    ShiftedByte(id, 0x1_0000, 0x1_0000);
    ShiftedByte(id, 0x100, 0x100_0000);
  }

  lemma ThreeBytes(root: string, a: string, b: string, c: string)
    requires |a| == |b| == |c| == 2
    ensures var f, n := root + "\\" + a + "\\" + b + "\\" + c, |root|;
      Byte(f, n + 1) == Byte(a, 0) && Byte(f, n + 4) == Byte(b, 0) && Byte(f, n + 7) == Byte(c, 0)
  {
    var f, n := root + "\\" + a + "\\" + b + "\\" + c, |root|;
    assert f[n + 1] == a[0] && f[n + 2] == a[1];
    assert f[n + 4] == b[0] && f[n + 5] == b[1];
    assert f[n + 7] == c[0] && f[n + 8] == c[1];
  }

  lemma UpperBytes(u: int)
    requires 0 <= u < 0x1_0000_0000
    ensures u / 256 == (u / 0x100_0000 * 256 + u / 0x1_0000 % 256) * 256 + u / 0x100 % 256
  {
  }

  lemma FolderBytes(root: string, id: int)
    requires IsInt32(id)
    ensures var f, n := Folder(root, id), |root|;
      (Byte(f, n + 1) * 256 + Byte(f, n + 4)) * 256 + Byte(f, n + 7) == Unsigned(id) / 256
  {
    ShiftedBytes(id);
    ThreeBytes(root, Hex2(Shifted(id, 0x100_0000)), Hex2(Shifted(id, 0x1_0000)), Hex2(Shifted(id, 0x100)));
    UpperBytes(Unsigned(id));
  }

  /** Two IDs share a leaf folder exactly when they agree in all but the last byte. */
  lemma SameFolder(root: string, id: int, id': int)
    requires IsInt32(id) && IsInt32(id')
    ensures Folder(root, id) == Folder(root, id') <==> Unsigned(id) / 256 == Unsigned(id') / 256
  {
    FolderBytes(root, id);
    FolderBytes(root, id');
    if Unsigned(id) / 256 == Unsigned(id') / 256 {
      var u, u' := Unsigned(id), Unsigned(id');
      ShiftedBytes(id);
      ShiftedBytes(id');
      assert u / 0x100_0000 == u / 256 / 0x1_0000 && u' / 0x100_0000 == u' / 256 / 0x1_0000;
      assert u / 0x1_0000 == u / 256 / 0x100 && u' / 0x1_0000 == u' / 256 / 0x100;
    }
  }

  lemma {:induction false} IntervalSize(s: set<int>, lo: int, n: nat)
    requires forall x :: x in s ==> lo <= x < lo + n
    ensures |s| <= n
  {
    if n == 0 {
      assert forall x :: x !in s;
      assert s == {};
    } else {
      var x := lo + n - 1;
      IntervalSize(s - {x}, lo, n - 1);
      assert s <= (s - {x}) + {x};
      SubsetCardinality(s, (s - {x}) + {x});
    }
  }

  lemma SameBlock(a: int, b: int)
    requires IsInt32(a) && IsInt32(b) && Unsigned(a) / 256 == Unsigned(b) / 256
    ensures a / 256 * 256 <= b < a / 256 * 256 + 256
  {
  }

  lemma NextTo(root: string, folder: string, a: int, b: int)
    requires IsInt32(a) && IsInt32(b) && Folder(root, a) == folder && Folder(root, b) == folder
    ensures a / 256 * 256 <= b < a / 256 * 256 + 256
  {
    SameFolder(root, a, b);
    SameBlock(a, b);
  }

  ghost predicate AllIn(root: string, folder: string, ids: set<int>) {
    forall id :: id in ids ==> IsInt32(id) && Folder(root, id) == folder
  }

  /** A leaf folder holds at most 256 files. */
  lemma AtMost256PerFolder(root: string, folder: string, ids: set<int>)
    requires AllIn(root, folder, ids)
    ensures |ids| <= 256
  {
    if one :| one in ids {
      forall id | id in ids
        ensures one / 256 * 256 <= id < one / 256 * 256 + 256
      {
        NextTo(root, folder, one, id);
      }
      IntervalSize(ids, one / 256 * 256, 256);
    } else {
      IntervalSize(ids, 0, 0);
    }
  }
}
