/** The Influx line-protocol text the counter filter emits: the tag prefix
    derived from the configuration and the per-tick payload line, together with
    parsers that read both back. */
module MetricLine {
  import opened Wrappers
  import opened Decimal
  import opened Strings

  /** The four Influx labels of a configuration. */
  datatype Tags = Tags(measurement: string, vip: string, ip: string, topic: string)

  /** Measurement, ip and topic are mandatory; the vip is optional. */
  predicate HasRequiredTags(t: Tags) {
    t.measurement != "" && t.ip != "" && t.topic != ""
  }

  /** No label holds the tag separator. The source does not escape labels, so
      only for such labels does the prefix determine them. */
  predicate CommaFree(t: Tags) {
    ',' !in t.measurement && ',' !in t.vip && ',' !in t.ip && ',' !in t.topic
  }

  /** The tag prefix "measurement[,vip=V],ip=I,topic=T": the measurement and
      the keyed labels joined by commas, with the vip tag only when a vip is given. */
  function Prefix(t: Tags): (p: string)
    ensures p == Join(Pieces(t), ',')
  {
    assert [','] + "vip=" == ",vip=" && [','] + "ip=" == ",ip=" && [','] + "topic=" == ",topic=";
    if t.vip != "" then
      JoinFour(Pieces(t), ',');
      t.measurement + ",vip=" + t.vip + ",ip=" + t.ip + ",topic=" + t.topic
    else
      JoinThree(Pieces(t), ',');
      t.measurement + ",ip=" + t.ip + ",topic=" + t.topic
  }

  /** One emitted metric line: the prefix, the count as field `size`, the
      constant field `value=1`, and the timestamp in nanoseconds. After the
      prefix, the only newline is the final one. */
  function Payload(prefix: string, size: nat, ts: int): (s: string)
    ensures |s| > |prefix| && s[..|prefix|] == prefix
    ensures s[|s| - 1] == '\n' && '\n' !in s[|prefix|..|s| - 1]
  {
    assert IntToDecimal(size) == NatToDecimal(size);
    OneLine(prefix, NatToDecimal(size), IntToDecimal(ts));
    prefix + " size=" + NatToDecimal(size) + ",value=1 " + IntToDecimal(ts) + "\n"
  }

  /** A payload line with newline-free numerals ends with a newline, and no other
      newline follows the prefix (the prefix itself may hold one). */
  lemma OneLine(prefix: string, digits: string, numeral: string)
    requires '\n' !in digits && '\n' !in numeral
    ensures
      var s := prefix + " size=" + digits + ",value=1 " + numeral + "\n";
      && |s| > |prefix| && s[..|prefix|] == prefix
      && s[|s| - 1] == '\n' && '\n' !in s[|prefix|..|s| - 1]
  {
  }

  /** The parts of a metric line. */
  datatype Line = Line(prefix: string, size: nat, ts: int)

  /** The rest of `field` after the fixed `key`, if it starts with it. */
  function StripKey(field: string, key: string): (r: Option<string>)
    ensures r.Some? <==> |key| <= |field| && field[..|key|] == key
    ensures r.Some? ==> field == key + r.value
  {
    if |key| <= |field| && field[..|key|] == key then
      assert field == key + field[|key|..];
      Some(field[|key|..])
    else None
  }

  /** Reads the labels back out of a prefix; rejects text Prefix never builds. */
  function ParsePrefix(p: string): Option<Tags> {
    ParseTagFields(Split(p, ','))
  }

  /** Reads the labels out of the comma-separated pieces of a prefix. */
  function ParseTagFields(fields: seq<string>): Option<Tags> {
    if |fields| == 3 then
      match (StripKey(fields[1], "ip="), StripKey(fields[2], "topic="))
      case (Some(ip), Some(topic)) =>
        var t := Tags(fields[0], "", ip, topic);
        if HasRequiredTags(t) then Some(t) else None
      case _ => None
    else if |fields| == 4 then
      match (StripKey(fields[1], "vip="), StripKey(fields[2], "ip="), StripKey(fields[3], "topic="))
      case (Some(vip), Some(ip), Some(topic)) =>
        var t := Tags(fields[0], vip, ip, topic);
        if HasRequiredTags(t) && vip != "" then Some(t) else None
      case _ => None
    else None
  }

  /** Reads "prefix size=N,value=1" back into the prefix and N. */
  function ParseFields(head: string): Option<(string, nat)> {
    if |head| < 8 || head[|head| - 8..] != ",value=1" then None
    else
      match SplitAtLast(head[..|head| - 8], ' ')
      case None => None
      case Some((prefix, sizeField)) =>
        match StripKey(sizeField, "size=")
        case None => None
        case Some(digits) =>
          match ParseNat(digits)
          case None => None
          case Some(n) => Some((prefix, n))
  }

  /** Reads a metric line back, scanning from its end; rejects text Payload never builds. */
  function ParsePayload(s: string): Option<Line> {
    if |s| == 0 || s[|s| - 1] != '\n' then None
    else
      match SplitAtLast(s[..|s| - 1], ' ')
      case None => None
      case Some((head, tsText)) =>
        match (ParseFields(head), ParseInt(tsText))
        case (Some((prefix, n)), Some(ts)) => Some(Line(prefix, n, ts))
        case _ => None
  }

  /** The comma-separated pieces of a prefix. */
  function Pieces(t: Tags): seq<string> {
    if t.vip == "" then [t.measurement, "ip=" + t.ip, "topic=" + t.topic]
    else [t.measurement, "vip=" + t.vip, "ip=" + t.ip, "topic=" + t.topic]
  }

  /** The labels are comma-free exactly when the pieces are. */
  lemma PiecesCommaFree(t: Tags)
    ensures CommaFree(t) <==> forall i :: 0 <= i < |Pieces(t)| ==> ',' !in Pieces(t)[i]
  {
    KeyedCommaFree("ip=", t.ip);
    KeyedCommaFree("topic=", t.topic);
    KeyedCommaFree("vip=", t.vip);
    if t.vip == "" {
      var ps := Pieces(t);
      assert |ps| == 3 && ps[0] == t.measurement && ps[1] == "ip=" + t.ip && ps[2] == "topic=" + t.topic;
      assert ',' !in t.vip;
    } else {
      var ps := Pieces(t);
      assert |ps| == 4 && ps[0] == t.measurement && ps[1] == "vip=" + t.vip;
      assert ps[2] == "ip=" + t.ip && ps[3] == "topic=" + t.topic;
    }
  }

  lemma KeyedCommaFree(key: string, value: string)
    requires ',' !in key
    ensures ',' !in (key + value) <==> ',' !in value
  {
  }

  lemma PrefixRoundTrip(t: Tags)
    requires HasRequiredTags(t) && CommaFree(t)
    ensures ParsePrefix(Prefix(t)) == Some(t)
  {
    PiecesCommaFree(t);
    SplitJoin(Pieces(t), ',');
  }

  lemma PrefixParseSound(p: string, t: Tags)
    requires ParsePrefix(p) == Some(t)
    ensures HasRequiredTags(t) && CommaFree(t)
    ensures Prefix(t) == p
  {
    TagFieldsSound(Split(p, ','), t);
    PiecesCommaFree(t);
  }

  /** The pieces the field parser accepts are those of a prefix with the labels it returns. */
  lemma TagFieldsSound(fields: seq<string>, t: Tags)
    requires ParseTagFields(fields) == Some(t)
    ensures HasRequiredTags(t) && fields == Pieces(t)
  {
  }

  /** Labels holding commas can collide: two different configurations share a prefix. */
  lemma PrefixCollision()
    ensures Tags("a,ip=b", "", "c", "t") != Tags("a", "", "b,ip=c", "t")
    ensures Prefix(Tags("a,ip=b", "", "c", "t")) == Prefix(Tags("a", "", "b,ip=c", "t"))
  {
  }

  lemma FieldsRoundTrip(prefix: string, size: nat)
    ensures ParseFields(prefix + " size=" + NatToDecimal(size) + ",value=1") == Some((prefix, size))
  {
    var digits := NatToDecimal(size);
    var sizeField := "size=" + digits;
    var head := prefix + " size=" + digits + ",value=1";
    assert head[|head| - 8..] == ",value=1";
    assert head[..|head| - 8] == prefix + [' '] + sizeField;
    assert ' ' !in sizeField by {
      assert forall i :: 0 <= i < |digits| ==> IsDigit(digits[i]);
    }
    SplitAtLastConcat(prefix, ' ', sizeField);
    NatRoundTrip(size);
  }

  lemma FieldsParseSound(head: string, prefix: string, size: nat)
    requires ParseFields(head) == Some((prefix, size))
    ensures head == prefix + " size=" + NatToDecimal(size) + ",value=1"
  {
    var (p, sizeField) := SplitAtLast(head[..|head| - 8], ' ').value;
    var digits := StripKey(sizeField, "size=").value;
    NatParseSound(digits, size);
    assert head == head[..|head| - 8] + ",value=1";
  }

  lemma PayloadRoundTrip(prefix: string, size: nat, ts: int)
    ensures ParsePayload(Payload(prefix, size, ts)) == Some(Line(prefix, size, ts))
  {
    var s := Payload(prefix, size, ts);
    var head := prefix + " size=" + NatToDecimal(size) + ",value=1";
    var tsText := IntToDecimal(ts);
    assert s[..|s| - 1] == head + [' '] + tsText;
    SplitAtLastConcat(head, ' ', tsText);
    FieldsRoundTrip(prefix, size);
    IntRoundTrip(ts);
  }

  lemma PayloadParseSound(s: string, l: Line)
    requires ParsePayload(s) == Some(l)
    ensures Payload(l.prefix, l.size, l.ts) == s
  {
    var body := s[..|s| - 1];
    assert s == body + "\n";
    var (head, tsText) := SplitAtLast(body, ' ').value;
    assert body == head + " " + tsText;
    IntParseSound(tsText, l.ts);
    FieldsParseSound(head, l.prefix, l.size);
    PayloadSplit(l.prefix, NatToDecimal(l.size), tsText);
  }

  /** Regroups a payload line around the space before the timestamp. */
  lemma PayloadSplit(prefix: string, digits: string, numeral: string)
    ensures prefix + " size=" + digits + ",value=1 " + numeral + "\n"
         == (prefix + " size=" + digits + ",value=1") + " " + numeral + "\n"
  {
  }
}
