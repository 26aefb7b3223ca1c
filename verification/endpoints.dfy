/** The provider's four kinds of request, and the URL each is sent to. */
module Endpoints {
  import opened Text

  /** A request to the provider, named by the codes substituted into its URL. */
  datatype Request =
    | ProvinceList
    | CityList(provinceCode: string)
    | CountyList(provinceCode: string, cityCode: string)
    | WeatherNow(provinceCode: string, cityCode: string, countyCode: string)

  const ProvinceUrl := "http://www.weather.com.cn/data/city3jdata/china.html"
  const CityUrlTemplate := "http://www.weather.com.cn/data/city3jdata/provshi/{province}.html"
  const CountyUrlTemplate := "http://www.weather.com.cn/data/city3jdata/station/{province}{city}.html"
  const WeatherUrlTemplate := "http://www.weather.com.cn/data/sk/{province}{city}{county}.html"

  const ListingSite := "http://www.weather.com.cn/data/city3jdata/"
  const CityUrlPrefix := ListingSite + "provshi/"
  const CountyUrlPrefix := ListingSite + "station/"
  const WeatherUrlPrefix := "http://www.weather.com.cn/data/sk/"
  const Html := ".html"

  const ProvinceSlot := "{province}"
  const CitySlot := "{city}"
  const CountySlot := "{county}"

  /** The city listing of a province: the province code is substituted verbatim. */
  function CityUrl(provinceCode: string): (url: string)
    ensures url == CityUrlPrefix + provinceCode + Html
  {
    FillCityTemplate(provinceCode);
    Replace(CityUrlTemplate, ProvinceSlot, provinceCode)
  }

  /** The county listing of a city: for codes without braces, the prefix, both codes and ".html". */
  function CountyUrl(provinceCode: string, cityCode: string): (url: string)
    ensures '{' !in provinceCode ==> url == CountyUrlPrefix + provinceCode + cityCode + Html
  {
    var url := Replace(Replace(CountyUrlTemplate, ProvinceSlot, provinceCode), CitySlot, cityCode);
    if '{' in provinceCode then url
    else
      FillCountyTemplate(provinceCode, cityCode);
      url
  }

  /** The current weather of a county: for codes without braces, the prefix, the three codes and ".html". */
  function WeatherUrl(provinceCode: string, cityCode: string, countyCode: string): (url: string)
    ensures '{' !in provinceCode && '{' !in cityCode ==> url == WeatherUrlPrefix + provinceCode + cityCode + countyCode + Html
  {
    var url := Replace(Replace(Replace(WeatherUrlTemplate, ProvinceSlot, provinceCode), CitySlot, cityCode), CountySlot, countyCode);
    if '{' in provinceCode || '{' in cityCode then url
    else
      FillWeatherTemplate(provinceCode, cityCode, countyCode);
      url
  }

  /** The URL a request is sent to: each kind of request has its own fixed prefix, followed by its codes and ".html". */
  function Url(r: Request): (url: string)
    ensures r.ProvinceList? ==> url == ProvinceUrl
    ensures r.CityList? ==> url == CityUrlPrefix + r.provinceCode + Html
    ensures r.CountyList? && '{' !in r.provinceCode ==> url == CountyUrlPrefix + r.provinceCode + r.cityCode + Html
    ensures r.WeatherNow? && '{' !in r.provinceCode && '{' !in r.cityCode ==>
      url == WeatherUrlPrefix + r.provinceCode + r.cityCode + r.countyCode + Html
  {
    match r
    case ProvinceList => ProvinceUrl
    case CityList(p) => CityUrl(p)
    case CountyList(p, c) => CountyUrl(p, c)
    case WeatherNow(p, c, k) => WeatherUrl(p, c, k)
  }

  lemma SlotsArePlaceholders()
    ensures Placeholder(ProvinceSlot) && Placeholder(CitySlot) && Placeholder(CountySlot)
    ensures ProvinceSlot != CitySlot && ProvinceSlot != CountySlot && CitySlot != CountySlot
    ensures '{' !in WeatherUrlPrefix && '{' !in Html && ProvinceSlot[0] == '{' && CitySlot[0] == '{' && CountySlot[0] == '{'
  {
  }

  lemma CityTemplateShape()
    ensures CityUrlTemplate == CityUrlPrefix + (ProvinceSlot + Html) && '{' !in CityUrlPrefix
  {
  }

  lemma CountyTemplateShape()
    ensures CountyUrlTemplate == CountyUrlPrefix + (ProvinceSlot + (CitySlot + Html)) && '{' !in CountyUrlPrefix
  {
  }

  lemma WeatherTemplateShape()
    ensures WeatherUrlTemplate == WeatherUrlPrefix + (ProvinceSlot + (CitySlot + (CountySlot + Html)))
  {
  }

  /** A slot after brace-free text is filled in place. */
  lemma FillSlot(a: string, slot: string, x: string, rest: string)
    requires '{' !in a && |slot| > 0 && slot[0] == '{'
    ensures Replace(a + (slot + rest), slot, x) == a + (x + Replace(rest, slot, x))
  {
    ReplaceAfter(a, slot + rest, slot, x);
    ReplaceHere(rest, slot, x);
  }

  lemma FillCityTemplate(p: string)
    ensures Replace(CityUrlTemplate, ProvinceSlot, p) == CityUrlPrefix + p + Html
  {
    SlotsArePlaceholders();
    CityTemplateShape();
    FillSlot(CityUrlPrefix, ProvinceSlot, p, Html);
    ReplaceUntouched(Html, ProvinceSlot, p);
  }

  lemma FillCountyProvince(p: string)
    ensures Replace(CountyUrlTemplate, ProvinceSlot, p) == CountyUrlPrefix + (p + (CitySlot + Html))
  {
    SlotsArePlaceholders();
    CountyTemplateShape();
    FillSlot(CountyUrlPrefix, ProvinceSlot, p, CitySlot + Html);
    ReplaceOther(CitySlot, Html, ProvinceSlot, p);
    ReplaceUntouched(Html, ProvinceSlot, p);
  }

  lemma FillCountyTemplate(p: string, c: string)
    requires '{' !in p
    ensures Replace(Replace(CountyUrlTemplate, ProvinceSlot, p), CitySlot, c) == CountyUrlPrefix + p + c + Html
  {
    SlotsArePlaceholders();
    CountyTemplateShape();
    FillCountyProvince(p);
    var a := CountyUrlPrefix + p;
    assert CountyUrlPrefix + (p + (CitySlot + Html)) == a + (CitySlot + Html);
    FillSlot(a, CitySlot, c, Html);
    ReplaceUntouched(Html, CitySlot, c);
  }

  lemma FillProvince(p: string)
    ensures Replace(WeatherUrlTemplate, ProvinceSlot, p) == WeatherUrlPrefix + (p + (CitySlot + (CountySlot + Html)))
  {
    SlotsArePlaceholders();
    WeatherTemplateShape();
    FillSlot(WeatherUrlPrefix, ProvinceSlot, p, CitySlot + (CountySlot + Html));
    ReplaceOther(CitySlot, CountySlot + Html, ProvinceSlot, p);
    ReplaceOther(CountySlot, Html, ProvinceSlot, p);
    ReplaceUntouched(Html, ProvinceSlot, p);
  }

  lemma FillCity(a: string, c: string)
    requires '{' !in a
    ensures Replace(a + (CitySlot + (CountySlot + Html)), CitySlot, c) == a + (c + (CountySlot + Html))
  {
    SlotsArePlaceholders();
    FillSlot(a, CitySlot, c, CountySlot + Html);
    ReplaceOther(CountySlot, Html, CitySlot, c);
    ReplaceUntouched(Html, CitySlot, c);
  }

  lemma FillCounty(a: string, k: string)
    requires '{' !in a
    ensures Replace(a + (CountySlot + Html), CountySlot, k) == a + (k + Html)
  {
    SlotsArePlaceholders();
    FillSlot(a, CountySlot, k, Html);
    ReplaceUntouched(Html, CountySlot, k);
  }

  /** Codes without braces are substituted verbatim, one placeholder after another. */
  lemma FillWeatherTemplate(p: string, c: string, k: string)
    requires '{' !in p && '{' !in c
    ensures Replace(Replace(Replace(WeatherUrlTemplate, ProvinceSlot, p), CitySlot, c), CountySlot, k)
        == WeatherUrlPrefix + p + c + k + Html
  {
    SlotsArePlaceholders();
    FillProvince(p);
    var a := WeatherUrlPrefix + p;
    assert WeatherUrlPrefix + (p + (CitySlot + (CountySlot + Html))) == a + (CitySlot + (CountySlot + Html));
    FillCity(a, c);
    var b := a + c;
    assert a + (c + (CountySlot + Html)) == b + (CountySlot + Html);
    FillCounty(b, k);
  }
}
