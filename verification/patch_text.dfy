/** Text helpers shared by the patch parser and the patch matcher. */
module PatchText {

  // The characters that Python's strip removes.
  predicate IsSpace(c: char) {
    || c == ' '
    || '\U{9}' <= c <= '\U{d}'
    || '\U{1c}' <= c <= '\U{1f}'
    || c == '\U{85}' || c == '\U{a0}' || c == '\U{1680}'
    || '\U{2000}' <= c <= '\U{200a}'
    || c == '\U{2028}' || c == '\U{2029}' || c == '\U{202f}' || c == '\U{205f}' || c == '\U{3000}'
  }

  function Rstrip(text: string): (r: string)
    ensures r <= text && (r != "" ==> !IsSpace(r[|r| - 1]))
    ensures forall i | |r| <= i < |text| :: IsSpace(text[i])
  {
    if text == "" then ""
    else if IsSpace(text[|text| - 1]) then Rstrip(text[..|text| - 1])
    else text
  }

  function Lstrip(text: string): (r: string)
    ensures |r| <= |text| && r == text[|text| - |r|..] && (r != "" ==> !IsSpace(r[0]))
  {
    if text == "" then ""
    else if IsSpace(text[0]) then Lstrip(text[1..])
    else text
  }

  function Strip(text: string): string {
    Lstrip(Rstrip(text))
  }
}
