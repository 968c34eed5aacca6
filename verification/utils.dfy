/**
 * `format_table`: a key/value listing with the keys right-aligned in a
 * column two characters wider than the longest key. Keys and values are
 * taken to be ASCII, so a key's byte length is its character count.
 */
module Utils {
  import opened Text

  type Entry = (string, string)

  /** The length of the longest key, or 0 for an empty listing. */
  function MaxKeyLen(info: seq<Entry>): (m: nat)
    ensures forall i :: 0 <= i < |info| ==> |info[i].0| <= m
    ensures info == [] ==> m == 0
    ensures info != [] ==> exists i :: 0 <= i < |info| && |info[i].0| == m
    decreases |info|
  {
    if info == [] then 0
    else
      var rest := MaxKeyLen(info[1..]);
      if |info[0].0| >= rest then |info[0].0|
      else
        var i :| 0 <= i < |info[1..]| && |info[1..][i].0| == rest;
        assert |info[i + 1].0| == rest;
        rest
  }

  function Width(info: seq<Entry>): nat {
    MaxKeyLen(info) + 2
  }

  /** One entry of the table: the key right-aligned to `width`, a colon, a space and the value, then a newline; a bare newline for an empty entry. */
  function Line(width: nat, e: Entry): string {
    if e.0 == "" && e.1 == "" then "\n"
    else Spaces(if |e.0| < width then width - |e.0| else 0) + e.0 + ": " + e.1 + "\n"
  }

  function Lines(width: nat, info: seq<Entry>): string
    decreases |info|
  {
    if info == [] then "" else Line(width, info[0]) + Lines(width, info[1..])
  }

  /** `utils::format_table` */
  function FormatTable(info: seq<Entry>): (r: string)
    ensures info == [] ==> r == ""
    ensures info != [] ==> |r| > 0 && r[|r| - 1] == '\n'
  {
    if info == [] then ""
    else
      LinesLastNewline(Width(info), info);
      Lines(Width(info), info)
  }

  lemma {:induction false} LinesLastNewline(w: nat, info: seq<Entry>)
    requires info != []
    ensures var r := Lines(w, info); |r| > 0 && r[|r| - 1] == '\n'
    decreases |info|
  {
    if |info| > 1 {
      LinesLastNewline(w, info[1..]);
    }
  }

  /** The table of a concatenation is the concatenation of the tables: one line per entry, in order. */
  lemma {:induction false} LinesSplit(w: nat, a: seq<Entry>, b: seq<Entry>)
    ensures Lines(w, a + b) == Lines(w, a) + Lines(w, b)
    decreases |a|
  {
    if a == [] {
      assert a + b == b;
    } else {
      assert (a + b)[1..] == a[1..] + b;
      LinesSplit(w, a[1..], b);
    }
  }

  /** The table is the lines of the entries before `i`, then entry `i`'s line, then the rest. */
  lemma EntryLine(info: seq<Entry>, i: nat)
    requires i < |info|
    ensures FormatTable(info)
      == Lines(Width(info), info[..i]) + Line(Width(info), info[i]) + Lines(Width(info), info[i + 1..])
  {
    var w := Width(info);
    assert info == info[..i] + ([info[i]] + info[i + 1..]);
    LinesSplit(w, info[..i], [info[i]] + info[i + 1..]);
    LinesSplit(w, [info[i]], info[i + 1..]);
    assert Lines(w, [info[i]]) == Line(w, info[i]) by {
      assert [info[i]][1..] == [];
    }
  }

  /**
   * Every non-empty entry is right-aligned: its padding is at least two
   * spaces and every key ends in the same column, `Width(info)`.
   */
  lemma AlignedEntry(info: seq<Entry>, i: nat)
    requires i < |info| && !(info[i].0 == "" && info[i].1 == "")
    ensures Width(info) - |info[i].0| >= 2
    ensures Line(Width(info), info[i])
      == Spaces(Width(info) - |info[i].0|) + info[i].0 + ": " + info[i].1 + "\n"
  {
  }

  predicate NoNewline(e: Entry) {
    '\n' !in e.0 && '\n' !in e.1
  }

  /** When no key or value holds a newline, the table has exactly one newline per entry. */
  lemma {:induction false} LinesNewlines(w: nat, info: seq<Entry>)
    requires forall i :: 0 <= i < |info| ==> NoNewline(info[i])
    ensures Count(Lines(w, info), '\n') == |info|
    decreases |info|
  {
    if info != [] {
      var e := info[0];
      LinesNewlines(w, info[1..]);
      CountConcat(Line(w, e), Lines(w, info[1..]), '\n');
      if !(e.0 == "" && e.1 == "") {
        var pad := Spaces(if |e.0| < w then w - |e.0| else 0);
        assert '\n' !in pad;
        CountAbsent(pad + e.0 + ": " + e.1, '\n');
        CountConcat(pad + e.0 + ": " + e.1, "\n", '\n');
      }
    }
  }

  lemma TableNewlines(info: seq<Entry>)
    requires forall i :: 0 <= i < |info| ==> NoNewline(info[i])
    ensures Count(FormatTable(info), '\n') == |info|
  {
    LinesNewlines(Width(info), info);
  }
}
