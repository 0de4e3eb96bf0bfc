/** Human-readable sizes, and the binary log settings derived from the requested storage. */
module Sizes {
  import opened Common
  import opened Names

  const KB := 1024
  const MB := 1024 * 1024
  const GB := 1024 * 1024 * 1024

  /** The text of `value` in units of `scale`, when that loses at most a thousandth. */
  function TryUnit(value: nat, scale: nat, unit: char): Option<string>
    requires scale > 0
  {
    var allow := value / 1000;
    if value >= scale && value % scale <= allow then Some(Decimal(value / scale) + [unit]) else None
  }

  function HumanizeSize(value: nat): string {
    var g := TryUnit(value, GB, 'G');
    if g.Some? then g.value
    else
      var m := TryUnit(value, MB, 'M');
      if m.Some? then m.value
      else
        var k := TryUnit(value, KB, 'K');
        if k.Some? then k.value else Decimal(value)
  }

  /** How mysqld reads a size: a decimal number and an optional unit. */
  function ReadSize(s: string): Option<nat> {
    if s == "" then None
    else
      var unit, digits := s[|s| - 1], s[..|s| - 1];
      if unit == 'G' then Scaled(digits, GB)
      else if unit == 'M' then Scaled(digits, MB)
      else if unit == 'K' then Scaled(digits, KB)
      else Scaled(s, 1)
  }

  function Scaled(digits: string, scale: nat): Option<nat> {
    if digits != "" && AllDigits(digits) then Some(DecimalValue(digits) * scale) else None
  }

  lemma WithUnit(n: nat, unit: char, scale: nat)
    requires (unit == 'G' && scale == GB) || (unit == 'M' && scale == MB) || (unit == 'K' && scale == KB)
    ensures ReadSize(Decimal(n) + [unit]) == Some(n * scale)
  {
    var s := Decimal(n) + [unit];
    assert s[|s| - 1] == unit && s[..|s| - 1] == Decimal(n);
    DecimalRoundTrip(n);
  }

  lemma WithoutUnit(n: nat)
    ensures ReadSize(Decimal(n)) == Some(n)
  {
    var s := Decimal(n);
    DecimalRoundTrip(n);
    assert s[|s| - 1] in s;
  }

  lemma UnitLoss(value: nat, scale: nat)
    requires scale > 0 && value % scale <= value / 1000
    ensures var back := value / scale * scale; back <= value && 1000 * (value - back) <= value
  {
    assert value == value / scale * scale + value % scale;
  }

  /** A size is read back never above what was meant, and below it by at most a thousandth. */
  lemma ReadBack(value: nat)
    ensures var r := ReadSize(HumanizeSize(value));
            r.Some? && r.value <= value && 1000 * (value - r.value) <= value
  {
    if TryUnit(value, GB, 'G').Some? {
      WithUnit(value / GB, 'G', GB);
      UnitLoss(value, GB);
    } else if TryUnit(value, MB, 'M').Some? {
      WithUnit(value / MB, 'M', MB);
      UnitLoss(value, MB);
    } else if TryUnit(value, KB, 'K').Some? {
      WithUnit(value / KB, 'K', KB);
      UnitLoss(value, KB);
    } else {
      WithoutUnit(value);
    }
  }

  lemma WholeUnits(value: nat, scale: nat)
    requires scale > 0
    ensures value / scale * scale == value <==> value % scale == 0
  {
  }

  /** It is read back unchanged exactly when no unit was used that does not divide it. */
  lemma ReadBackExactly(value: nat)
    ensures ReadSize(HumanizeSize(value)) == Some(value) <==>
            if TryUnit(value, GB, 'G').Some? then value % GB == 0
            else if TryUnit(value, MB, 'M').Some? then value % MB == 0
            else TryUnit(value, KB, 'K').Some? ==> value % KB == 0
  {
    hide ReadSize;
    if TryUnit(value, GB, 'G').Some? {
      WithUnit(value / GB, 'G', GB);
      WholeUnits(value, GB);
    } else if TryUnit(value, MB, 'M').Some? {
      WithUnit(value / MB, 'M', MB);
      WholeUnits(value, MB);
    } else if TryUnit(value, KB, 'K').Some? {
      WithUnit(value / KB, 'K', KB);
      WholeUnits(value, KB);
    } else {
      WithoutUnit(value);
    }
  }

  /* ---- defaults in the MySQL configuration ---- */

  type Conf = map<string, string>

  datatype Setting = Setting(option: string, value: string)

  /** The configuration with a default for each of these settings, in order. */
  function WithDefaults(conf: Conf, defaults: seq<Setting>): Conf {
    if defaults == [] then conf
    else
      var before, last := WithDefaults(conf, defaults[..|defaults| - 1]), defaults[|defaults| - 1];
      if last.option in before then before else before[last.option := last.value]
  }

  /** What the user set is kept; what is added is a default for an option the user left out. */
  lemma {:induction false} DefaultsOnlyFill(conf: Conf, defaults: seq<Setting>, option: string)
    ensures option in conf ==>
              option in WithDefaults(conf, defaults) && WithDefaults(conf, defaults)[option] == conf[option]
    ensures option in WithDefaults(conf, defaults) <==>
            option in conf || exists d :: d in defaults && d.option == option
    ensures option in WithDefaults(conf, defaults) && option !in conf ==>
            Setting(option, WithDefaults(conf, defaults)[option]) in defaults
  {
    if defaults != [] {
      DefaultsOnlyFill(conf, defaults[..|defaults| - 1], option);
      assert defaults == defaults[..|defaults| - 1] + [defaults[|defaults| - 1]];
    }
  }

  lemma {:induction false} NothingToFill(conf: Conf, defaults: seq<Setting>)
    requires forall d :: d in defaults ==> d.option in conf
    ensures WithDefaults(conf, defaults) == conf
  {
    if defaults != [] { NothingToFill(conf, defaults[..|defaults| - 1]); }
  }

  /** The defaults that a reconcile computes may change, with the storage say, but those of the first time stay. */
  lemma FirstDefaultsStay(conf: Conf, first: seq<Setting>, second: seq<Setting>)
    requires forall d :: d in second ==> exists e :: e in first && e.option == d.option
    ensures WithDefaults(WithDefaults(conf, first), second) == WithDefaults(conf, first)
  {
    forall d | d in second ensures d.option in WithDefaults(conf, first) { DefaultsOnlyFill(conf, first, d.option); }
    NothingToFill(WithDefaults(conf, first), second);
  }

  /* ---- the binary log ---- */

  function Min(a: nat, b: nat): nat { if a <= b then a else b }

  /** How much the binary logs may take in all, and the size of one of them. */
  function BinlogSizes(space: nat): (nat, nat) {
    if space < 2 * GB then (space / 3, Min(space / 3 / 3, GB)) else (space / 2, Min(space / 2 / 4, GB))
  }

  function BinlogDefaults(space: nat, percona: bool): seq<Setting> {
    var (limit, size) := BinlogSizes(space);
    (if percona then [Setting("binlog-space-limit", HumanizeSize(limit))] else [])
    + [Setting("max-binlog-size", HumanizeSize(size))]
  }

  /** Three logs fit in the limit, and the limit in half the storage; the same holds of the rounded texts up to
      the thousandth lost in rounding the limit. */
  lemma BinlogsFit(space: nat)
    ensures var (limit, size) := BinlogSizes(space);
            var readLimit, readSize := ReadSize(HumanizeSize(limit)), ReadSize(HumanizeSize(size));
            && 3 * size <= limit && 2 * limit <= space && size <= GB
            && readLimit.Some? && readSize.Some?
            && 2 * readLimit.value <= space && readSize.value <= GB
            && 2997 * readSize.value <= 1000 * readLimit.value
  {
    var (limit, size) := BinlogSizes(space);
    ReadBack(limit);
    ReadBack(size);
  }

  class MysqlConf {
    var conf: Conf

    constructor (conf: Conf)
      ensures this.conf == conf
    {
      this.conf := conf;
    }

    method SetConfigIfNotSet(option: string, value: string)
      modifies this
      ensures conf == WithDefaults(old(conf), [Setting(option, value)])
    {
      assert [Setting(option, value)][..0] == [];
      assert WithDefaults(conf, []) == conf;
      if option !in conf { conf := conf[option := value]; }
    }

    /** The part of the defaults that depends on the requested storage; nothing without one. */
    method SetBinlogDefaults(storage: Option<nat>, percona: bool)
      modifies this
      ensures conf == if storage.None? then old(conf)
                      else WithDefaults(old(conf), BinlogDefaults(storage.value, percona))
    {
      if storage.Some? {
        var space := storage.value;
        var binlogSpaceLimit := space / 2;
        var maxBinlogSize := Min(binlogSpaceLimit / 4, GB);
        if space < 2 * GB {
          binlogSpaceLimit := space / 3;
          maxBinlogSize := Min(binlogSpaceLimit / 3, GB);
        }
        ghost var before := conf;
        var limit, size := HumanizeSize(binlogSpaceLimit), HumanizeSize(maxBinlogSize);
        if percona { SetConfigIfNotSet("binlog-space-limit", limit); }
        ghost var first := if percona then [Setting("binlog-space-limit", limit)] else [];
        assert conf == WithDefaults(before, first);
        SetConfigIfNotSet("max-binlog-size", size);
        DefaultsSnoc(before, first, Setting("max-binlog-size", size));
      }
    }
  }

  lemma DefaultsSnoc(conf: Conf, defaults: seq<Setting>, d: Setting)
    ensures WithDefaults(conf, defaults + [d]) == WithDefaults(WithDefaults(conf, defaults), [d])
  {
    assert (defaults + [d])[..|defaults|] == defaults;
    assert [d][..0] == [];
    assert WithDefaults(WithDefaults(conf, defaults), []) == WithDefaults(conf, defaults);
  }

  /* ---- which unit, which sizes ---- */

  lemma UnitUsed(value: nat, scale: nat, unit: char)
    requires scale > 0
    ensures TryUnit(value, scale, unit).Some? <==> value >= scale && 1000 * (value % scale) <= value
    ensures TryUnit(value, scale, unit).Some? ==> TryUnit(value, scale, unit).value == Decimal(value / scale) + [unit]
  {
  }

  /** The largest unit is used in which no more than a thousandth is lost: gibibytes, mebibytes, kibibytes, or none. */
  lemma HumanizedExactly(value: nat)
    ensures HumanizeSize(value)
            == if value >= 0x4000_0000 && 1000 * (value % 0x4000_0000) <= value
               then Decimal(value / 0x4000_0000) + "G"
               else if value >= 0x10_0000 && 1000 * (value % 0x10_0000) <= value
               then Decimal(value / 0x10_0000) + "M"
               else if value >= 0x400 && 1000 * (value % 0x400) <= value then Decimal(value / 0x400) + "K"
               else Decimal(value)
  {
    UnitUsed(value, GB, 'G');
    UnitUsed(value, MB, 'M');
    UnitUsed(value, KB, 'K');
    hide TryUnit, Decimal;
  }

  /** Below 2 GiB the logs may take a third of the storage and one of them a ninth; from 2 GiB on a half and an
      eighth, but one of them never more than 1 GiB. All are rounded down to bytes. */
  lemma BinlogSizesExactly(space: nat)
    ensures var (limit, size) := BinlogSizes(space);
            if space < 0x8000_0000 then 3 * limit <= space < 3 * limit + 3 && 9 * size <= space < 9 * size + 9
            else
              && 2 * limit <= space < 2 * limit + 2
              && (if space < 0x2_0000_0000 then 8 * size <= space < 8 * size + 8 else size == 0x4000_0000)
  {
  }

  /** The option for the size of one log is always set, the one for all of them exactly for a Percona image. */
  lemma BinlogOptions(conf: Conf, space: nat, percona: bool)
    ensures var after := WithDefaults(conf, BinlogDefaults(space, percona));
            && "max-binlog-size" in after && (percona ==> "binlog-space-limit" in after)
            && ("max-binlog-size" !in conf ==> after["max-binlog-size"] == HumanizeSize(BinlogSizes(space).1))
            && (percona && "binlog-space-limit" !in conf ==>
                  after["binlog-space-limit"] == HumanizeSize(BinlogSizes(space).0))
            && (!percona && "binlog-space-limit" !in conf ==> "binlog-space-limit" !in after)
  {
    var defaults := BinlogDefaults(space, percona);
    assert "max-binlog-size" != "binlog-space-limit" by { assert "max-binlog-size"[0] != "binlog-space-limit"[0]; }
    DefaultsOnlyFill(conf, defaults, "max-binlog-size");
    DefaultsOnlyFill(conf, defaults, "binlog-space-limit");
    hide HumanizeSize, BinlogSizes, WithDefaults;
    assert defaults[|defaults| - 1] == Setting("max-binlog-size", HumanizeSize(BinlogSizes(space).1));
    if percona { assert defaults[0] == Setting("binlog-space-limit", HumanizeSize(BinlogSizes(space).0)); }
  }
}
