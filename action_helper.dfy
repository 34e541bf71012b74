/** The label shown for an action's effect-area type, followed by the type number in parentheses. */
module ActionHelper {
  import opened Wrappers
  import opened Text

  type uint32 = n: nat | n < 0x1_0000_0000

  /** The switch that names each effect-area type; every value past 15 is reported as a wrong type. */
  function TypeLabel(t: uint32): (r: string)
    ensures r == "圆形" <==> t == 2 || t == 5 || t == 6 || t == 7
    ensures r == "扇形" <==> t == 3 || t == 13
    ensures r == "矩形" <==> t == 4 || t == 12
    ensures r == "类型错误" <==> t > 15
    ensures t == 0 ==> r == "未知"
    ensures t == 9 ==> r == "不存在此类型"
  {
    match t
    case 0 => "未知"
    case 1 => "单体"
    case 2 => "圆形"
    case 5 => "圆形"
    case 6 => "圆形"
    case 7 => "圆形"
    case 3 => "扇形"
    case 13 => "扇形"
    case 4 => "矩形"
    case 12 => "矩形"
    case 8 => "矩形(从来源到目标或目的地)"
    case 9 => "不存在此类型"
    case 10 => "环形"
    case 11 => "十字"
    case 14 => "三角形"
    case 15 => "武士pvp突进"
    case _ => "类型错误"
  }

  /** Position of the last '(' in s. */
  function LastOpenParen(s: string): (k: Option<nat>)
    ensures k.Some? ==> k.value < |s| && s[k.value] == '(' && forall i :: k.value < i < |s| ==> s[i] != '('
    ensures k.None? ==> forall i :: 0 <= i < |s| ==> s[i] != '('
  {
    if s == [] then None
    else if s[|s| - 1] == '(' then Some(|s| - 1)
    else LastOpenParen(s[..|s| - 1])
  }

  /**
   * Takes a type string apart again: the label is everything before the last
   * '(' and the number is the run of digits between it and the closing ')'.
   * Labels may themselves hold parentheses, which is why the last '(' is used.
   */
  function SplitTypeString(s: string): Option<(string, nat)> {
    if |s| == 0 || s[|s| - 1] != ')' then None
    else
      match LastOpenParen(s[..|s| - 1])
      case None => None
      case Some(j) =>
        var digits := s[j + 1..|s| - 1];
        if |digits| > 0 && forall i :: 0 <= i < |digits| ==> IsDigit(digits[i])
        then Some((s[..j], ParseDecimal(digits)))
        else None
  }

  /**
   * The label of t followed by "(t)": both parts can be read back from the
   * result, and the number is written without leading zeros.
   */
  function GetTypeString(t: uint32): (r: string)
    ensures |r| > 0 && r[|r| - 1] == ')'
    ensures SplitTypeString(r) == Some((TypeLabel(t), t))
    ensures |r| >= |TypeLabel(t)| + 3 && r[..|TypeLabel(t)|] == TypeLabel(t) && r[|TypeLabel(t)|] == '('
    ensures var digits := r[|TypeLabel(t)| + 1..|r| - 1]; |digits| > 1 ==> digits[0] != '0'
  {
    var name := TypeLabel(t);
    var digits := Decimal(t);
    var r := name + "(" + digits + ")";
    SplitTypeStringOf(name, digits);
    DecimalRoundTrip(t);
    r
  }

  /** In label + "(" + digits the last '(' is the one just after the label. */
  lemma {:induction false} LastOpenParenAfterLabel(name: string, digits: string)
    requires forall i :: 0 <= i < |digits| ==> IsDigit(digits[i])
    ensures LastOpenParen(name + "(" + digits) == Some(|name|)
    decreases |digits|
  {
    var body := name + "(" + digits;
    if digits != [] {
      var init := digits[..|digits| - 1];
      assert body[|body| - 1] == digits[|digits| - 1];
      assert body[..|body| - 1] == name + "(" + init;
      LastOpenParenAfterLabel(name, init);
    }
  }

  lemma SplitTypeStringOf(name: string, digits: string)
    requires |digits| > 0 && forall i :: 0 <= i < |digits| ==> IsDigit(digits[i])
    ensures SplitTypeString(name + "(" + digits + ")") == Some((name, ParseDecimal(digits)))
  {
    var r := name + "(" + digits + ")";
    LastOpenParenAfterLabel(name, digits);
    assert r[..|r| - 1] == name + "(" + digits;
    assert r[|name| + 1..|r| - 1] == digits;
    assert r[..|name|] == name;
  }

  /** Different types never share a type string. */
  lemma GetTypeStringInjective(s: uint32, t: uint32)
    requires GetTypeString(s) == GetTypeString(t)
    ensures s == t
  {
  }
}
