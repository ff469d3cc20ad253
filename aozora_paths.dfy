/**
 * Mapping a work's text URL to its path in a local checkout of the Aozora
 * Bunko text repository (tmp/aozora_data.py, `convert_url_to_local_path`):
 * the site prefix becomes the checkout's `cards/` directory, `.zip` is
 * dropped everywhere, and the file inside that directory is named after its
 * last component with `.txt` appended.
 */
module AozoraPaths {
  import opened Wrappers
  import opened Strings
  import opened Paths

  const CardsUrl: string := "https://www.aozora.gr.jp/cards/"
  const LocalCards: string := "aozorabunko_text-master/cards/"
  const Zip: string := ".zip"
  const Txt: string := ".txt"

  /** `base_path`: the two literal replaces. */
  function LocalBase(url: string): string
  {
    ReplaceAll(ReplaceAll(url, CardsUrl, LocalCards), Zip, "")
  }

  /** `convert_url_to_local_path`. `None` stands for any value that is not a
      string (a missing cell), for which the source returns `None`. */
  function ConvertUrlToLocalPath(url: Option<string>): (r: Option<string>)
    ensures r.None? <==> url.None?
    ensures r.Some? ==> |r.value| >= |Txt| && r.value[|r.value| - |Txt|..] == Txt
  {
    match url
    case None => None
    case Some(u) =>
      var base := LocalBase(u);
      var name := Basename(base) + Txt;
      var p := PathJoin(base, name);
      assert p[|p| - |Txt|..] == p[|p| - |name|..][|name| - |Txt|..];
      Some(p)
  }

  /** The text file lies inside the rewritten base directory and is named
      after the base's last component with `.txt` appended. */
  lemma LocalPathShape(u: string)
    ensures var base := LocalBase(u);
      && base <= ConvertUrlToLocalPath(Some(u)).value
      && Basename(ConvertUrlToLocalPath(Some(u)).value) == Basename(base) + Txt
  {
    var base := LocalBase(u);
    var name := Basename(base) + Txt;
    assert '/' !in name;
    BasenameOfJoin(base, name);
  }

  /** An Aozora Bunko card URL maps under the checkout's `cards/`
      directory. */
  lemma CardUrlMapsUnderLocalCards(rest: string)
    ensures LocalCards <= ConvertUrlToLocalPath(Some(CardsUrl + rest)).value
  {
    var u := CardsUrl + rest;
    assert u[..|CardsUrl|] == CardsUrl;
    assert u[|CardsUrl|..] == rest;
    var t := ReplaceAll(rest, CardsUrl, LocalCards);
    assert ReplaceAll(u, CardsUrl, LocalCards) == LocalCards + t;
    assert '.' !in LocalCards;
    ReplaceAllSkip(LocalCards, t, Zip, "");
    var base := LocalBase(u);
    assert LocalCards <= base;
    LocalPathShape(u);
  }
}
