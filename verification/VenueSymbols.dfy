/** Printing symbols for the venues' streams and reading the venues' own symbols (`_to_ws_symbol` and
    `_normalize_rest_symbol` of `market_data_monitor_service`). */
module VenueSymbols {
  import opened Text

  datatype Venue = Binance | Bitget | Gate | Okx | Elsewhere

  /** Python's `replace`: every occurrence from the left. */
  function ReplaceAll(s: string, old_: string, new_: string): string
    requires old_ != ""
    decreases |s|
  {
    if s == "" then ""
    else if old_ <= s then new_ + ReplaceAll(s[|old_|..], old_, new_)
    else [s[0]] + ReplaceAll(s[1..], old_, new_)
  }

  predicate EndsWith(s: string, tail: string) {
    |tail| <= |s| && s[|s| - |tail|..] == tail
  }

  /** `_to_ws_symbol`. */
  function Print(v: Venue, symbol: string): string {
    var s := Strip(symbol);
    if s == "" then ""
    else match v
      case Bitget => ReplaceAll(ReplaceAll(s, "/", ""), ":USDT", "")
      case Gate => ReplaceAll(ReplaceAll(s, "/", "_"), ":USDT", "")
      case Okx => ReplaceAll(ReplaceAll(s, "/", "-"), ":USDT", "-SWAP")
      case Binance => ReplaceAll(ReplaceAll(s, "/", ""), ":USDT", "")
      case Elsewhere => s
  }

  function Compact(s: string): string {
    var base := if EndsWith(s, "USDT") then s[..|s| - 4] else s;
    if base == "" then "" else base + "/USDT:USDT"
  }

  /** `_normalize_rest_symbol`. */
  function Read(v: Venue, raw: string): string {
    var s := Upper(Strip(raw));
    if s == "" then ""
    else match v
      case Bitget => Compact(s)
      case Gate =>
        var base := ReplaceAll(s, "_", "/");
        if EndsWith(base, "/USDT") then base + ":USDT" else ""
      case Okx =>
        if !EndsWith(s, "-SWAP") then ""
        else
          var base := ReplaceAll(s[..|s| - 5], "-", "/");
          if EndsWith(base, "/USDT") then base + ":USDT" else ""
      case Binance => Compact(s)
      case Elsewhere => s
  }

  /** A base asset as the exchanges spell it: upper case, without blanks at its ends and without separators. */
  predicate CleanBase(base: string) {
    base != "" && Stripped(base) && Upper(base) == base && '/' !in base && ':' !in base && '_' !in base && '-' !in base
  }

  lemma {:induction false} ReplaceSkips(s: string, rest: string, old_: string, new_: string)
    requires old_ != "" && old_[0] !in s
    ensures ReplaceAll(s + rest, old_, new_) == s + ReplaceAll(rest, old_, new_)
  {
    if s == "" {
      assert s + rest == rest;
    } else {
      assert (s + rest)[0] == s[0] && (s + rest)[1..] == s[1..] + rest;
      ReplaceSkips(s[1..], rest, old_, new_);
      assert s == [s[0]] + s[1..];
    }
  }

  /** One occurrence after text that cannot hold another. */
  lemma ReplaceOnce(s: string, rest: string, old_: string, new_: string)
    requires old_ != "" && old_[0] !in s && old_[0] !in rest
    ensures ReplaceAll(s + old_ + rest, old_, new_) == s + new_ + rest
  {
    ReplaceSkips(s, old_ + rest, old_, new_);
    assert s + old_ + rest == s + (old_ + rest);
    assert old_ <= old_ + rest && (old_ + rest)[|old_|..] == rest;
    ReplaceSkips(rest, "", old_, new_);
    assert rest + "" == rest;
  }

  lemma UpperOfSum(a: string, b: string)
    ensures Upper(a + b) == Upper(a) + Upper(b)
  {
  }

  lemma TailsAreUpper()
    ensures Upper("USDT") == "USDT" && Upper("_USDT") == "_USDT" && Upper("-USDT-SWAP") == "-USDT-SWAP"
  {
  }

  /** Upper-case text without blanks at its ends is read as it stands. */
  lemma ReadsAsIs(base: string, tail: string)
    requires CleanBase(base) && tail in ["USDT", "_USDT", "-USDT-SWAP"]
    ensures Upper(Strip(base + tail)) == base + tail
  {
    StripStrips(base + tail);
    UpperOfSum(base, tail);
    TailsAreUpper();
  }

  lemma PrintedCompact(base: string)
    requires CleanBase(base)
    ensures Print(Binance, base + "/USDT:USDT") == base + "USDT" == Print(Bitget, base + "/USDT:USDT")
  {
    SymbolIsStripped(base);
    ReplaceSlash(base, "");
    assert base + "" + "USDT:USDT" == (base + "USDT") + ":USDT" + "";
    ReplaceOnce(base + "USDT", "", ":USDT", "");
    assert (base + "USDT") + "" + "" == base + "USDT";
  }

  lemma SymbolIsStripped(base: string)
    requires CleanBase(base)
    ensures Strip(base + "/USDT:USDT") == base + "/USDT:USDT"
  {
    StripStrips(base + "/USDT:USDT");
  }

  lemma ReplaceSlash(base: string, separator: string)
    requires CleanBase(base)
    ensures ReplaceAll(base + "/USDT:USDT", "/", separator) == base + separator + "USDT:USDT"
  {
    assert base + "/USDT:USDT" == base + "/" + "USDT:USDT";
    ReplaceOnce(base, "USDT:USDT", "/", separator);
  }

  lemma PrintedGate(base: string)
    requires CleanBase(base)
    ensures Print(Gate, base + "/USDT:USDT") == base + "_USDT"
  {
    SymbolIsStripped(base);
    ReplaceSlash(base, "_");
    assert base + "_" + "USDT:USDT" == (base + "_USDT") + ":USDT" + "";
    ReplaceOnce(base + "_USDT", "", ":USDT", "");
    assert (base + "_USDT") + "" + "" == base + "_USDT";
  }

  lemma PrintedOkx(base: string)
    requires CleanBase(base)
    ensures Print(Okx, base + "/USDT:USDT") == base + "-USDT-SWAP"
  {
    SymbolIsStripped(base);
    ReplaceSlash(base, "-");
    assert base + "-" + "USDT:USDT" == (base + "-USDT") + ":USDT" + "";
    ReplaceOnce(base + "-USDT", "", ":USDT", "-SWAP");
    assert (base + "-USDT") + "-SWAP" + "" == base + "-USDT-SWAP";
  }

  lemma ReadCompact(base: string)
    requires CleanBase(base)
    ensures Read(Binance, base + "USDT") == base + "/USDT:USDT" == Read(Bitget, base + "USDT")
  {
    ReadsAsIs(base, "USDT");
    assert (base + "USDT")[|base|..] == "USDT" && (base + "USDT")[..|base|] == base;
  }

  lemma ReadGate(base: string)
    requires CleanBase(base)
    ensures Read(Gate, base + "_USDT") == base + "/USDT:USDT"
  {
    ReadsAsIs(base, "_USDT");
    assert base + "_USDT" == base + "_" + "USDT";
    ReplaceOnce(base, "USDT", "_", "/");
    assert base + "/" + "USDT" == base + "/USDT";
    assert (base + "/USDT")[|base|..] == "/USDT";
    assert base + "/USDT" + ":USDT" == base + "/USDT:USDT";
  }

  lemma ReadOkx(base: string)
    requires CleanBase(base)
    ensures Read(Okx, base + "-USDT-SWAP") == base + "/USDT:USDT"
  {
    ReadsAsIs(base, "-USDT-SWAP");
    OkxParts(base, base + "-USDT-SWAP");
  }

  lemma OkxParts(base: string, s: string)
    requires CleanBase(base) && s == base + "-USDT-SWAP"
    ensures EndsWith(s, "-SWAP") && ReplaceAll(s[..|s| - 5], "-", "/") == base + "/USDT"
    ensures EndsWith(base + "/USDT", "/USDT") && base + "/USDT" + ":USDT" == base + "/USDT:USDT"
  {
    assert s[|s| - 5..] == "-SWAP" && s[..|s| - 5] == base + "-" + "USDT";
    ReplaceOnce(base, "USDT", "-", "/");
    assert base + "/" + "USDT" == base + "/USDT";
    assert (base + "/USDT")[|base|..] == "/USDT";
  }

  /** On each of the four venues, reading what was printed gives the symbol back. */
  lemma SymbolsRoundTrip(v: Venue, base: string)
    requires CleanBase(base) && v != Elsewhere
    ensures Read(v, Print(v, base + "/USDT:USDT")) == base + "/USDT:USDT"
  {
    match v
    case Binance => PrintedCompact(base); ReadCompact(base);
    case Bitget => PrintedCompact(base); ReadCompact(base);
    case Gate => PrintedGate(base); ReadGate(base);
    case Okx => PrintedOkx(base); ReadOkx(base);
  }

  /** So no two symbols are subscribed under one name. */
  lemma PrintingIsInjective(v: Venue, a: string, b: string)
    requires CleanBase(a) && CleanBase(b) && v != Elsewhere
    requires Print(v, a + "/USDT:USDT") == Print(v, b + "/USDT:USDT")
    ensures a == b
  {
    SymbolsRoundTrip(v, a);
    SymbolsRoundTrip(v, b);
    assert (a + "/USDT:USDT")[..|a + "/USDT:USDT"| - 10] == a;
    assert (b + "/USDT:USDT")[..|b + "/USDT:USDT"| - 10] == b;
  }
}
