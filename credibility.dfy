/** CredibilityBuilders.js: which team bios are expanded, the initials shown
    when a member's photo is not, and which image source a photo or logo path
    resolves to. */
module Credibility {
  import opened Common

  /* ---------------- expanded bios ---------------- */

  /** `expandedBios[id]` read for truthiness: an id never toggled is collapsed. */
  predicate Expanded(bios: map<nat, bool>, id: nat) {
    id in bios && bios[id]
  }

  /** `toggleBio(id)`: a copy of the map with `id` set to the negation of its
      truthiness. */
  function ToggleBio(bios: map<nat, bool>, id: nat): (r: map<nat, bool>)
    ensures id in r && (Expanded(r, id) <==> !Expanded(bios, id))
    ensures forall k :: k != id ==> (k in r <==> k in bios)
    ensures forall k :: k in bios && k != id ==> r[k] == bios[k]
  {
    bios[id := !Expanded(bios, id)]
  }

  /** Toggling the same bio twice restores whether it is expanded and leaves
      every other bio as it was. */
  lemma ToggleTwice(bios: map<nat, bool>, id: nat)
    ensures var r := ToggleBio(ToggleBio(bios, id), id);
            && (Expanded(r, id) <==> Expanded(bios, id))
            && r == bios[id := Expanded(bios, id)]
  {
    var once := ToggleBio(bios, id);
    var twice := ToggleBio(once, id);
    assert twice == bios[id := Expanded(bios, id)];
  }

  /** Toggles of different bios commute. */
  lemma ToggleCommutes(bios: map<nat, bool>, a: nat, b: nat)
    requires a != b
    ensures ToggleBio(ToggleBio(bios, a), b) == ToggleBio(ToggleBio(bios, b), a)
  {
  }

  /* ---------------- initials ---------------- */

  /** `s.split(' ')`: the pieces between spaces; consecutive spaces give empty
      pieces, and the empty string gives one empty piece. */
  function Split(s: string): (words: seq<string>)
    ensures |words| >= 1
  {
    if |s| == 0 then [""]
    else
      var rest := Split(s[1..]);
      if s[0] == ' ' then [""] + rest
      else [[s[0]] + rest[0]] + rest[1..]
  }

  /** `.map(n => n[0]).join('')`: an empty piece's `n[0]` is undefined, which
      `join` writes as nothing. */
  function FirstChars(words: seq<string>): string {
    if |words| == 0 then ""
    else (if |words[0]| > 0 then [words[0][0]] else "") + FirstChars(words[1..])
  }

  /** `toUpperCase` on one character; letters outside a-z are left as they are. */
  function UpperChar(c: char): (u: char)
    ensures 'a' <= c <= 'z' ==> 'A' <= u <= 'Z' && u as int == c as int - 32
    ensures !('a' <= c <= 'z') ==> u == c
  {
    if 'a' <= c <= 'z' then (c as int - 'a' as int + 'A' as int) as char else c
  }

  function Upper(s: string): (u: string)
    ensures |u| == |s| && forall i :: 0 <= i < |s| ==> u[i] == UpperChar(s[i])
  {
    seq(|s|, i requires 0 <= i < |s| => UpperChar(s[i]))
  }

  /** `getInitials(name)`. */
  function Initials(name: string): string {
    Upper(FirstChars(Split(name)))
  }

  /** Reference definition: the characters that start a word, i.e. that are
      not spaces and come first or right after a space. */
  function WordStarts(s: string, afterSpace: bool): string {
    if |s| == 0 then ""
    else (if s[0] != ' ' && afterSpace then [s[0]] else "") + WordStarts(s[1..], s[0] == ' ')
  }

  /** The pieces' first characters are the word starts, and those of every
      piece but the first are the word starts after the first character. */
  lemma {:induction false} FirstCharsAreWordStarts(s: string)
    ensures FirstChars(Split(s)) == WordStarts(s, true)
    ensures FirstChars(Split(s)[1..]) == WordStarts(s, false)
  {
    if |s| > 0 {
      FirstCharsAreWordStarts(s[1..]);
      var rest := Split(s[1..]);
      if s[0] == ' ' {
        assert Split(s)[1..] == rest;
        assert FirstChars(Split(s)) == FirstChars(rest);
      } else {
        var w := [s[0]] + rest[0];
        assert Split(s)[0] == w && Split(s)[1..] == rest[1..];
        assert FirstChars(Split(s)) == [s[0]] + FirstChars(rest[1..]);
      }
    }
  }

  /** The initials are the upper-cased first character of every non-empty
      space-separated word, in order. */
  lemma InitialsAreWordStarts(name: string)
    ensures Initials(name) == Upper(WordStarts(name, true))
  {
    FirstCharsAreWordStarts(name);
  }

  /** A word without spaces contributes its first character, if it starts one. */
  lemma {:induction false} WordStartsWord(w: string, rest: string, afterSpace: bool)
    requires |w| > 0 && ' ' !in w
    ensures WordStarts(w + rest, afterSpace) == (if afterSpace then [w[0]] else "") + WordStarts(rest, false)
    decreases |w|
  {
    var s := w + rest;
    assert w[0] != ' ' by { assert w[0] in w; }
    assert s[0] == w[0] && s[1..] == w[1..] + rest;
    assert WordStarts(s, afterSpace) == (if afterSpace then [w[0]] else "") + WordStarts(s[1..], false);
    if |w| > 1 {
      assert ' ' !in w[1..] by { assert w == [w[0]] + w[1..]; }
      WordStartsWord(w[1..], rest, false);
    } else {
      assert s[1..] == rest;
    }
  }

  /** A first and a last name separated by one space give two initials, the
      upper-cased first letters of each ("Waqas Behzad" gives "WB"). */
  lemma TwoWordInitials(first: string, last: string)
    requires |first| > 0 && ' ' !in first && |last| > 0 && ' ' !in last
    ensures Initials(first + " " + last) == [UpperChar(first[0]), UpperChar(last[0])]
  {
    var name := first + " " + last;
    InitialsAreWordStarts(name);
    assert name == first + (" " + last);
    WordStartsWord(first, " " + last, true);
    assert (" " + last)[0] == ' ' && (" " + last)[1..] == last + "";
    WordStartsWord(last, "", true);
    assert WordStarts(name, true) == [first[0], last[0]];
  }

  /* ---------------- photos and logos ---------------- */

  /** The four repository paths the component maps to imported asset URLs. */
  function ImageMap(picture1: string, picture2: string, uhub: string, uni: string): (m: map<string, string>)
    ensures m.Keys == {"./ScaleIoT-webpage/Picture1.png", "./ScaleIoT-webpage/Picture2.png",
                       "./ScaleIoT-webpage/uhub.webp", "./ScaleIoT-webpage/uni.png"}
  {
    map["./ScaleIoT-webpage/Picture1.png" := picture1,
        "./ScaleIoT-webpage/Picture2.png" := picture2,
        "./ScaleIoT-webpage/uhub.webp" := uhub,
        "./ScaleIoT-webpage/uni.png" := uni]
  }

  /** `imageMap[path] || path`: the mapped URL when there is a non-empty
      one, the path itself otherwise. */
  function ImageSrc(imageMap: map<string, string>, path: string): (src: string)
    ensures path in imageMap && imageMap[path] != "" ==> src == imageMap[path]
    ensures path !in imageMap || imageMap[path] == "" ==> src == path
  {
    if path in imageMap && imageMap[path] != "" then imageMap[path] else path
  }

  datatype Member = Member(id: nat, name: string, photoUrl: Option<string>, showPhoto: bool)

  /** What the profile box shows. */
  datatype Avatar = Photo(src: string) | InitialsAvatar(text: string)

  /** `member.showPhoto && member.photoUrl ? <img> : <initials>`: a missing or
      empty URL is falsy. */
  function ProfileAvatar(imageMap: map<string, string>, m: Member): (a: Avatar)
    ensures a.Photo? <==> m.showPhoto && m.photoUrl.Some? && m.photoUrl.value != ""
    ensures a.Photo? ==> a.src == ImageSrc(imageMap, m.photoUrl.value)
    ensures a.InitialsAvatar? ==> a.text == Upper(WordStarts(m.name, true))
  {
    InitialsAreWordStarts(m.name);
    if m.showPhoto && m.photoUrl.Some? && m.photoUrl.value != "" then Photo(ImageSrc(imageMap, m.photoUrl.value))
    else InitialsAvatar(Initials(m.name))
  }
}
