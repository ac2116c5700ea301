/** The domain entities: the interface row, its status, and the status column of the database. */
module Entities {
  import opened Text

  datatype Status = Pending | Configured | Failed

  datatype NetworkInterface = NetworkInterface(
    id: int, mac: string, nodeName: string, status: Status, address: string, cidr: string, mtu: int64)

  datatype Validation = Valid | InvalidMacAddress | InvalidNodeName

  predicate IsHex(c: char) {
    IsDigit(c) || 'a' <= c <= 'f' || 'A' <= c <= 'F'
  }

  /** Six pairs of hexadecimal digits separated by ':' or '-'. */
  predicate IsValidMac(s: string) {
    |s| == 17 &&
    forall i | 0 <= i < 17 :: if i % 3 == 2 then s[i] == ':' || s[i] == '-' else IsHex(s[i])
  }

  function Validate(row: NetworkInterface): Validation {
    if !IsValidMac(row.mac) then InvalidMacAddress
    else if row.nodeName == "" then InvalidNodeName
    else Valid
  }

  /** The lower-case hexadecimal digit of a number below sixteen. */
  function HexChar(d: nat): char
    requires d < 16
  {
    if d < 10 then (d + 48) as char else (d - 10 + 97) as char
  }

  /** The digits of a MAC address text, two for each of six octets, and a separator between the octets. */
  ghost predicate Spells(s: string, digits: seq<nat>) {
    |s| == 17 && |digits| == 12 &&
    (forall i :: 0 <= i < 12 ==> digits[i] < 16 && LowerChar(s[i + i / 2]) == HexChar(digits[i])) &&
    (forall j :: 0 <= j < 5 ==> s[3 * j + 2] == ':' || s[3 * j + 2] == '-')
  }

  lemma {:induction false} HexExactly(c: char)
    ensures IsHex(c) <==> exists d: nat :: d < 16 && LowerChar(c) == HexChar(d)
  {
    if IsHex(c) {
      var l := LowerChar(c);
      var d: nat := if IsDigit(l) then l as int - 48 else l as int - 97 + 10;
      assert LowerChar(c) == HexChar(d);
    }
  }

  function DigitOf(c: char): nat {
    var l := LowerChar(c);
    if IsDigit(l) then l as int - 48 else if 'a' <= l <= 'f' then l as int - 87 else 0
  }

  lemma {:induction false} DigitOfHex(c: char)
    requires IsHex(c)
    ensures DigitOf(c) < 16 && LowerChar(c) == HexChar(DigitOf(c))
  {
  }

  /** The texts that pass are exactly those that spell six octets, in either case and with either separator. */
  lemma {:induction false} ValidMacExactly(s: string)
    ensures IsValidMac(s) <==> exists digits :: Spells(s, digits)
  {
    if IsValidMac(s) {
      var digits := seq(12, i requires 0 <= i < 12 => DigitOf(s[i + i / 2]));
      forall i | 0 <= i < 12
        ensures digits[i] < 16 && LowerChar(s[i + i / 2]) == HexChar(digits[i])
      {
        assert (i + i / 2) % 3 != 2;
        DigitOfHex(s[i + i / 2]);
      }
      assert forall j :: 0 <= j < 5 ==> (3 * j + 2) % 3 == 2;
      assert Spells(s, digits);
    }
    if digits :| Spells(s, digits) {
      forall i | 0 <= i < 17
        ensures if i % 3 == 2 then s[i] == ':' || s[i] == '-' else IsHex(s[i])
      {
        if i % 3 == 2 {
          assert s[3 * (i / 3) + 2] == s[i];
        } else {
          var x := 2 * (i / 3) + i % 3;
          assert x + x / 2 == i;
          HexExactly(s[i]);
          assert LowerChar(s[i]) == HexChar(digits[x]);
        }
      }
    }
  }

  /** A row passes exactly with such a MAC address and a node name; the MAC address is judged first. */
  lemma {:induction false} ValidateExactly(row: NetworkInterface)
    ensures Validate(row) == Valid <==> (exists digits :: Spells(row.mac, digits)) && row.nodeName != ""
    ensures Validate(row) == InvalidMacAddress <==> !exists digits :: Spells(row.mac, digits)
  {
    hide IsValidMac;
    ValidMacExactly(row.mac);
  }

  predicate SameMac(a: string, b: string) {
    Lower(a) == Lower(b)
  }

  /** The characters of a lower-cased MAC address need no trimming and hold no separator. */
  lemma {:induction false} ValidMacText(s: string)
    requires IsValidMac(s)
    ensures var m := Lower(s); |m| == 17 && Lower(m) == m && CleanEdges(m, IsSpace) && CleanEdges(m, IsQuote)
    ensures forall x :: x in Lower(s) ==> !IsSpace(x) && !IsQuote(x) && x != '\n'
  {
    var m := Lower(s);
    LowerTwice(s);
    forall x | x in m
      ensures !IsSpace(x) && !IsQuote(x)
    {
      var i :| 0 <= i < |m| && m[i] == x;
      assert if i % 3 == 2 then s[i] == ':' || s[i] == '-' else IsHex(s[i]);
      assert x == LowerChar(s[i]);
    }
    assert m[0] in m && m[16] in m;
  }

  // ---- the netplan_success column ----------------------------------------

  /** What an update stores for a status. */
  function EncodeStatus(s: Status): int {
    match s
    case Configured => 1
    case Failed => 0
    case Pending => 0
  }

  /** What a query makes of the stored value. */
  function DecodeStatus(column: int): Status {
    if column == 1 then Configured else Pending
  }

  /** A stored status comes back unless it is Failed, which comes back as Pending, as does every other value. */
  lemma {:induction false} StatusRoundTrip(s: Status)
    ensures DecodeStatus(EncodeStatus(s)) == s <==> s != Failed
    ensures DecodeStatus(EncodeStatus(Failed)) == Pending
    ensures forall column :: column != EncodeStatus(Configured) ==> DecodeStatus(column) == Pending
  {
  }

  function Column(stored: map<int, int>, id: int): int {
    if id in stored then stored[id] else 0
  }

  /** An update of the column; it fails when the database does, or when there is no such row. */
  function StoreStatus(stored: map<int, int>, id: int, status: Status, works: bool): (map<int, int>, bool) {
    if works && id in stored then (stored[id := EncodeStatus(status)], true) else (stored, false)
  }

  /** The rows of the node as a query returns them: static columns plus the decoded status. */
  function Fetch(table: seq<NetworkInterface>, stored: map<int, int>): (rows: seq<NetworkInterface>)
    ensures |rows| == |table|
    ensures forall i :: 0 <= i < |rows| ==> rows[i] == Current(table[i], stored)
  {
    seq(|table|, i requires 0 <= i < |table| => Current(table[i], stored))
  }

  function Current(row: NetworkInterface, stored: map<int, int>): NetworkInterface {
    row.(status := DecodeStatus(Column(stored, row.id)))
  }
}
