/**
 * The board's client records and the fixed seed table they are built from
 * (`getClients` in src/Board.js).
 */
module Clients {

  /** A client card on the board. `status` is any string: nothing in the board checks it. */
  datatype Client = Client(id: string, name: string, description: string, status: string)

  /** One row of the seed table: id, name, description and status, in that order. */
  datatype Row = Row(id: string, name: string, description: string, status: string)

  /** The three statuses the board has a column for. */
  predicate ValidStatus(status: string)
  {
    status == "backlog" || status == "in-progress" || status == "complete"
  }

  /** The number of rows in the seed table. */
  const SeedSize: nat := 20

  // The literal table `getClients` starts from, held column by column:
  // row `i` (from 0) is (SeedId(i), SeedName(i), SeedDescription(i), SeedStatus(i)).

  /** Column 0 of the seed table: the client id. */
  function SeedId(i: nat): string
    requires i < SeedSize
  {
    match i
    case 0 => "1"
    case 1 => "2"
    case 2 => "3"
    case 3 => "4"
    case 4 => "5"
    case 5 => "6"
    case 6 => "7"
    case 7 => "8"
    case 8 => "9"
    case 9 => "10"
    case 10 => "11"
    case 11 => "12"
    case 12 => "13"
    case 13 => "14"
    case 14 => "15"
    case 15 => "16"
    case 16 => "17"
    case 17 => "18"
    case 18 => "19"
    case _ => "20"
  }

  /** Column 1 of the seed table: the client name. */
  function SeedName(i: nat): string
    requires i < SeedSize
  {
    match i
    case 0 => "Stark, White and Abbott"
    case 1 => "Wiza LLC"
    case 2 => "Nolan LLC"
    case 3 => "Thompson PLC"
    case 4 => "Walker-Williamson"
    case 5 => "Boehm and Sons"
    case 6 => "Runolfsson, Hegmann and Block"
    case 7 => "Schumm-Labadie"
    case 8 => "Kohler Group"
    case 9 => "Romaguera Inc"
    case 10 => "Reilly-King"
    case 11 => "Emard, Champlin and Runolfsdottir"
    case 12 => "Fritsch, Cronin and Wolff"
    case 13 => "Borer LLC"
    case 14 => "Emmerich-Ankunding"
    case 15 => "Willms-Abbott"
    case 16 => "Brekke PLC"
    case 17 => "Bins, Toy and Klocko"
    case 18 => "Hodkiewicz-Hayes"
    case _ => "Murphy, Lang and Ferry"
  }

  /** Column 2 of the seed table: the description. */
  function SeedDescription(i: nat): string
    requires i < SeedSize
  {
    match i
    case 0 => "Cloned Optimal Architecture"
    case 1 => "Exclusive Bandwidth-Monitored Implementation"
    case 2 => "Vision-Oriented 4Thgeneration Graphicaluserinterface"
    case 3 => "Streamlined Regional Knowledgeuser"
    case 4 => "Team-Oriented 6Thgeneration Matrix"
    case 5 => "Automated Systematic Paradigm"
    case 6 => "Integrated Transitional Strategy"
    case 7 => "Operative Heuristic Challenge"
    case 8 => "Re-Contextualized Multi-Tasking Attitude"
    case 9 => "Managed Foreground Toolset"
    case 10 => "Future-Proofed Interactive Toolset"
    case 11 => "Devolved Needs-Based Capability"
    case 12 => "Open-Source 3Rdgeneration Website"
    case 13 => "Profit-Focused Incremental Orchestration"
    case 14 => "User-Centric Stable Extranet"
    case 15 => "Progressive Bandwidth-Monitored Access"
    case 16 => "Intuitive User-Facing Customerloyalty"
    case 17 => "Integrated Assymetric Software"
    case 18 => "Programmable Systematic Securedline"
    case _ => "Organized Explicit Access"
  }

  /** Column 3 of the seed table: the status. */
  function SeedStatus(i: nat): string
    requires i < SeedSize
  {
    match i
    case 0 => "in-progress"
    case 1 => "complete"
    case 2 => "backlog"
    case 3 => "in-progress"
    case 4 => "in-progress"
    case 5 => "backlog"
    case 6 => "backlog"
    case 7 => "backlog"
    case 8 => "backlog"
    case 9 => "backlog"
    case 10 => "complete"
    case 11 => "backlog"
    case 12 => "complete"
    case 13 => "backlog"
    case 14 => "in-progress"
    case 15 => "in-progress"
    case 16 => "complete"
    case 17 => "backlog"
    case 18 => "backlog"
    case _ => "backlog"
  }

  /** Row `i` (from 0) of the seed table. */
  function SeedRow(i: nat): Row
    requires i < SeedSize
  {
    Row(SeedId(i), SeedName(i), SeedDescription(i), SeedStatus(i))
  }

  /** The seed table, in table order. */
  function SeedTable(): (t: seq<Row>)
    ensures |t| == SeedSize
    ensures forall i :: 0 <= i < SeedSize ==> t[i] == SeedRow(i)
  {
    seq(SeedSize, i requires 0 <= i < SeedSize => SeedRow(i))
  }

  /**
   * The record made from one row. The empty string is the only falsy string,
   * so an empty status falls back to "backlog"; the other fields are copied.
   */
  function FromRow(row: Row): (c: Client)
    ensures c.status != ""
    ensures c.id == row.id && c.name == row.name && c.description == row.description
    ensures c.status == row.status || (row.status == "" && c.status == "backlog")
  {
    Client(row.id, row.name, row.description, if row.status == "" then "backlog" else row.status)
  }

  /** `getClients`: every row of the seed table mapped to a record, in table order. */
  function GetClients(): (cs: seq<Client>)
    ensures |cs| == SeedSize
    ensures forall i :: 0 <= i < SeedSize ==> cs[i] == FromRow(SeedRow(i))
  {
    var t := SeedTable();
    seq(|t|, i requires 0 <= i < |t| => FromRow(t[i]))
  }

  /** No two records of `cs` share an id. */
  predicate DistinctIds(cs: seq<Client>)
  {
    forall i, j :: 0 <= i < j < |cs| ==> cs[i].id != cs[j].id
  }

  /** The decimal digit `d` as a character. */
  function Digit(d: nat): char
    requires d < 10
  {
    ('0' as int + d) as char
  }

  /** The decimal numeral of `n`, without leading zeros, for one- and two-digit `n`. */
  function Numeral(n: nat): (s: string)
    requires 1 <= n < 100
    ensures 1 <= |s| <= 2
  {
    if n < 10 then [Digit(n)] else [Digit(n / 10), Digit(n % 10)]
  }

  /** Distinct numbers have distinct numerals. */
  lemma NumeralInjective(a: nat, b: nat)
    requires 1 <= a < 100 && 1 <= b < 100
    requires Numeral(a) == Numeral(b)
    ensures a == b
  {
    assert Numeral(a)[0] == Numeral(b)[0];
    if a >= 10 {
      assert Numeral(a)[1] == Numeral(b)[1];
    }
  }

  /** Row `i` of the seed table has the id `i + 1`, written in decimal. */
  lemma SeedIdsAreNumerals()
    ensures forall i :: 0 <= i < SeedSize ==> SeedId(i) == Numeral(i + 1)
  {
  }

  /** Every seed record has one of the three statuses. */
  lemma SeedStatusesValid()
    ensures forall i :: 0 <= i < |GetClients()| ==> ValidStatus(GetClients()[i].status)
  {
  }

  /**
   * The seed holds 20 records with ids "1" to "20" in table order, no two
   * with the same id, each with one of the board's three statuses.
   */
  lemma SeedShape()
    ensures |GetClients()| == 20
    ensures forall i :: 0 <= i < |GetClients()| ==> GetClients()[i].id == Numeral(i + 1)
    ensures DistinctIds(GetClients())
    ensures forall i :: 0 <= i < |GetClients()| ==> ValidStatus(GetClients()[i].status)
  {
    var cs := GetClients();
    SeedIdsAreNumerals();
    SeedStatusesValid();
    forall i, j | 0 <= i < j < |cs| ensures cs[i].id != cs[j].id {
      if cs[i].id == cs[j].id {
        NumeralInjective(i + 1, j + 1);
      }
    }
  }

}
