/** Text. */
module Text {
  predicate HasPrefix(s: string, p: string) { |p| <= |s| && s[..|p|] == p }
}
