/** The note written with every edit: which of name and price actually changed,
    joined by "; ", or an explicit no-change marker, followed by the caller's own
    remark when that remark is not blank. */
module EditSummary {
  import opened Wrappers
  import opened Catalog

  const NoChangesText: string := "Değişiklik yapılmadı."
  const Separator: string := "; "
  const RemarkLabel: string := "\nAçıklama: "

  /** Python's `str.isspace` for one code point: the characters `str.strip()` removes. */
  predicate IsSpace(c: char)
  {
    var n := c as int;
    (0x09 <= n <= 0x0D) || (0x1C <= n <= 0x20) || n == 0x85 || n == 0xA0 || n == 0x1680 ||
    (0x2000 <= n <= 0x200A) || n == 0x2028 || n == 0x2029 || n == 0x202F || n == 0x205F || n == 0x3000
  }

  predicate Blank(s: string)
  {
    forall k :: 0 <= k < |s| ==> IsSpace(s[k])
  }

  /** `s` without its leading whitespace. */
  function TrimStart(s: string): (t: string)
    ensures |t| <= |s| && t == s[|s| - |t|..]
    ensures Blank(s[..|s| - |t|])
    ensures t != [] ==> !IsSpace(t[0])
  {
    if s != [] && IsSpace(s[0]) then TrimStart(s[1..]) else s
  }

  /** `s` without its trailing whitespace. */
  function TrimEnd(s: string): (t: string)
    ensures |t| <= |s| && t == s[..|t|]
    ensures Blank(s[|t|..])
    ensures t != [] ==> !IsSpace(t[|t| - 1])
  {
    if s != [] && IsSpace(s[|s| - 1]) then TrimEnd(s[..|s| - 1]) else s
  }

  /** Python's `s.strip()`: `s` without whitespace at either end. It is empty exactly
      when `s` is blank, which is when the source treats the stripped remark as false. */
  function Trim(s: string): (t: string)
    ensures |t| <= |s|
    ensures t == [] <==> Blank(s)
    ensures t != [] ==> !IsSpace(t[0]) && !IsSpace(t[|t| - 1])
  {
    TrimEnd(TrimStart(s))
  }

  /** What `Trim` removes is whitespace only: its result is the slice of `s` that starts
      after the leading whitespace. */
  lemma TrimIsSlice(s: string)
    ensures
      var i := |s| - |TrimStart(s)|;
      var t := Trim(s);
      i + |t| <= |s| && t == s[i..i + |t|] && Blank(s[..i]) && Blank(s[i + |t|..])
  {
    var a := TrimStart(s);
    var t := TrimEnd(a);
    var i := |s| - |a|;
    assert a[|t|..] == s[i + |t|..];
  }

  /** One thing an edit changed: the name or the price, with the old and the new value. */
  datatype Change = Renamed(oldName: string, newName: string) | Repriced(oldPrice: Price, newPrice: Price)

  /** A supplied name counts as a change only if it differs from the stored one. */
  predicate Renames(oldName: string, newName: Option<string>)
  {
    newName.Some? && newName.value != oldName
  }

  /** A supplied price counts as a change only if it differs from the stored one. */
  predicate Reprices(oldPrice: Price, newPrice: Option<Price>)
  {
    newPrice.Some? && newPrice.value != oldPrice
  }

  /** The list of changes an edit makes, name first, then price. */
  function Changes(oldName: string, oldPrice: Price, newName: Option<string>, newPrice: Option<Price>): (cs: seq<Change>)
    ensures |cs| <= 2
    ensures forall c :: c in cs ==>
      (Renames(oldName, newName) && c == Renamed(oldName, newName.value)) ||
      (Reprices(oldPrice, newPrice) && c == Repriced(oldPrice, newPrice.value))
    ensures Renames(oldName, newName) ==> Renamed(oldName, newName.value) in cs
    ensures Reprices(oldPrice, newPrice) ==> Repriced(oldPrice, newPrice.value) in cs
    ensures |cs| == 2 ==> cs[0].Renamed? && cs[1].Repriced?
  {
    (if Renames(oldName, newName) then [Renamed(oldName, newName.value)] else []) +
    (if Reprices(oldPrice, newPrice) then [Repriced(oldPrice, newPrice.value)] else [])
  }

  /** The line describing one change; the price is rendered by `priceText`. */
  function ChangeText(c: Change, priceText: Price -> string): string
  {
    match c
    case Renamed(a, b) => "İsim değişikliği: '" + a + "' → '" + b + "'"
    case Repriced(a, b) => "Fiyat değişikliği: " + priceText(a) + "₺ → " + priceText(b) + "₺"
  }

  function ChangeTexts(cs: seq<Change>, priceText: Price -> string): (r: seq<string>)
    ensures |r| == |cs|
    ensures forall k :: 0 <= k < |cs| ==> r[k] == ChangeText(cs[k], priceText)
  {
    if cs == [] then [] else [ChangeText(cs[0], priceText)] + ChangeTexts(cs[1..], priceText)
  }

  /** Python's `sep.join(parts)`. */
  function Join(parts: seq<string>, sep: string): string
  {
    if parts == [] then ""
    else if |parts| == 1 then parts[0]
    else parts[0] + sep + Join(parts[1..], sep)
  }

  /** The changes joined by "; ", or the no-change marker when there are none. */
  function Summary(cs: seq<Change>, priceText: Price -> string): string
  {
    var lines := ChangeTexts(cs, priceText);
    Join(if lines == [] then [NoChangesText] else lines, Separator)
  }

  /** The note of an edit movement: the summary of what changed, then the trimmed
      remark after "\nAçıklama: " when the remark is not blank. */
  function EditNote(oldName: string, oldPrice: Price, newName: Option<string>, newPrice: Option<Price>,
                    remark: string, priceText: Price -> string): string
  {
    var summary := Summary(Changes(oldName, oldPrice, newName, newPrice), priceText);
    var extra := Trim(remark);
    if extra != "" then summary + RemarkLabel + extra else summary
  }

  /** The summary lists no change, one change, or the name change then the price change. */
  lemma SummaryFormat(cs: seq<Change>, priceText: Price -> string)
    requires |cs| <= 2
    ensures cs == [] ==> Summary(cs, priceText) == NoChangesText
    ensures |cs| == 1 ==> Summary(cs, priceText) == ChangeText(cs[0], priceText)
    ensures |cs| == 2 ==> Summary(cs, priceText) == ChangeText(cs[0], priceText) + Separator + ChangeText(cs[1], priceText)
  {
    var lines := ChangeTexts(cs, priceText);
    if |cs| == 2 {
      assert lines[1..] == [ChangeText(cs[1], priceText)];
      assert Join(lines[1..], Separator) == ChangeText(cs[1], priceText);
    }
  }

  /** The summary of an edit: the no-change marker, the one change that differs, or the
      name change then the price change joined by "; ". */
  lemma EditSummaryFormat(oldName: string, oldPrice: Price, newName: Option<string>, newPrice: Option<Price>,
                          priceText: Price -> string)
    ensures
      var text := Summary(Changes(oldName, oldPrice, newName, newPrice), priceText);
      var rename := ChangeText(Renamed(oldName, newName.GetOr(oldName)), priceText);
      var reprice := ChangeText(Repriced(oldPrice, newPrice.GetOr(oldPrice)), priceText);
      && (!Renames(oldName, newName) && !Reprices(oldPrice, newPrice) ==> text == NoChangesText)
      && (Renames(oldName, newName) && !Reprices(oldPrice, newPrice) ==> text == rename)
      && (!Renames(oldName, newName) && Reprices(oldPrice, newPrice) ==> text == reprice)
      && (Renames(oldName, newName) && Reprices(oldPrice, newPrice) ==> text == rename + Separator + reprice)
  {
    var cs := Changes(oldName, oldPrice, newName, newPrice);
    SummaryFormat(cs, priceText);
    if Renames(oldName, newName) && Reprices(oldPrice, newPrice) {
      assert cs == [Renamed(oldName, newName.value), Repriced(oldPrice, newPrice.value)];
    } else if Renames(oldName, newName) {
      assert cs == [Renamed(oldName, newName.value)];
    } else if Reprices(oldPrice, newPrice) {
      assert cs == [Repriced(oldPrice, newPrice.value)];
    } else {
      assert cs == [];
    }
  }

  /** The remark is appended after "\nAçıklama: " in trimmed form exactly when it is not blank. */
  lemma EditNoteRemark(oldName: string, oldPrice: Price, newName: Option<string>, newPrice: Option<Price>,
                       remark: string, priceText: Price -> string)
    ensures
      var summary := Summary(Changes(oldName, oldPrice, newName, newPrice), priceText);
      EditNote(oldName, oldPrice, newName, newPrice, remark, priceText)
        == if Blank(remark) then summary else summary + RemarkLabel + Trim(remark)
  {
  }
}
