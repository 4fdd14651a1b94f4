/**
 * The five output artifacts of the "generate" operation. Each artifact is
 * a fixed head, one fixed-shape block per record in record order, and a
 * fixed tail; two of them take their head from an optional template file.
 *
 * Every artifact is defined declaratively as a function of the records;
 * beside it, a `Write...` method performs the same writes, one after the
 * other, that the corresponding `_generate_*` method issues, and is proved
 * to produce exactly the declared text.
 */
module Emitters {
  import opened Tables

  /** The blocks `item(r)` of the records `recs`, concatenated in record order. */
  function Join(recs: seq<Record>, item: Record -> string): (text: string)
  {
    if recs == [] then "" else Join(recs[..|recs| - 1], item) + item(recs[|recs| - 1])
  }

  /**
   * The `for row in data_rows` loop every emitter runs: the block of each
   * record is written after what is already there, in record order.
   */
  method WriteRows(written: string, recs: seq<Record>, item: Record -> string) returns (text: string)
    ensures text == written + Join(recs, item)
  {
    text := written;
    for i := 0 to |recs|
      invariant text == written + Join(recs[..i], item)
    {
      text := text + item(recs[i]);
      assert recs[..i + 1][..i] == recs[..i];
    }
    assert recs[..|recs|] == recs;
  }

  /** The blocks of two record sequences written one after the other are the blocks of their concatenation. */
  lemma {:induction false} JoinConcat(a: seq<Record>, b: seq<Record>, item: Record -> string)
    ensures Join(a + b, item) == Join(a, item) + Join(b, item)
    decreases |b|
  {
    if b == [] {
      assert a + b == a;
    } else {
      var init := b[..|b| - 1];
      assert (a + b)[..|a + b| - 1] == a + init;
      JoinConcat(a, init, item);
    }
  }

  /**
   * Row order is kept: the block of record `i` stands after the blocks of
   * all records before it and before the blocks of all records after it.
   */
  lemma BlockAt(recs: seq<Record>, item: Record -> string, i: nat)
    requires i < |recs|
    ensures Join(recs, item) == Join(recs[..i], item) + item(recs[i]) + Join(recs[i + 1..], item)
  {
    var before, after := recs[..i], recs[i + 1..];
    assert recs == (before + [recs[i]]) + after;
    JoinConcat(before + [recs[i]], after, item);
    JoinConcat(before, [recs[i]], item);
    JoinOne(recs[i], item);
  }

  lemma JoinOne(r: Record, item: Record -> string)
    ensures Join([r], item) == item(r)
  {
    assert [r][..0] == [];
  }

  /** The content of an optional template file, or the built-in text when the file is missing. */
  function TemplateOr(template: Option<string>, fallback: string): (text: string)
  {
    match template
    case Some(t) => t
    case None => fallback
  }

  /** A text made of a head and what is written after it starts with that head. */
  lemma StartsWith(head: string, a: string, b: string)
    ensures (head + a + b)[..|head|] == head
  {
    assert head + a + b == head + (a + b);
  }

  lemma StartsWithThree(head: string, a: string, b: string, c: string)
    ensures (head + a + b + c)[..|head|] == head
  {
    assert head + a + b + c == head + (a + b + c);
  }

  // ---------------------------------------------------------------- appfilter.xml

  const AppfilterHead: string := "<?xml version=\"1.0\" encoding=\"UTF-8\"?>\n" + "<resources>\n" + "\n"
  const AppfilterTail: string := "\n" + "</resources>"

  function AppfilterItem(r: Record): (block: string)
  {
    "    <item\n"
    + "        component=\"ComponentInfo{" + r.packageName + "/" + r.launcherActivity + "}\"\n"
    + "        drawable=\"" + r.iconName + "\" />\n"
    + "\t\n"
  }

  function Appfilter(recs: seq<Record>): (text: string)
  {
    AppfilterHead + Join(recs, AppfilterItem) + AppfilterTail
  }

  method WriteAppfilter(recs: seq<Record>) returns (text: string)
    ensures text == Appfilter(recs)
  {
    text := "<?xml version=\"1.0\" encoding=\"UTF-8\"?>\n";
    text := text + "<resources>\n";
    text := text + "\n";
    text := WriteRows(text, recs, AppfilterItem);
    text := text + "\n";
    text := text + "</resources>";
  }

  // ---------------------------------------------------------------- appmap.xml

  const AppmapHead: string := "<?xml version=\"1.0\" ?>\n" + "<appmap>\n"
  const AppmapTail: string := "</appmap>\n"

  function AppmapItem(r: Record): (block: string)
  {
    "    <item class=\"" + r.launcherActivity + "\" name=\"" + r.iconName + "\"/>\n"
  }

  function Appmap(recs: seq<Record>): (text: string)
  {
    AppmapHead + Join(recs, AppmapItem) + AppmapTail
  }

  method WriteAppmap(recs: seq<Record>) returns (text: string)
    ensures text == Appmap(recs)
  {
    text := "<?xml version=\"1.0\" ?>\n";
    text := text + "<appmap>\n";
    text := WriteRows(text, recs, AppmapItem);
    text := text + "</appmap>\n";
  }

  // ---------------------------------------------------------------- drawable.xml

  const DrawableHead: string :=
    "<?xml version=\"1.0\" ?>\n" + "<resources>\n" + "    <version>1</version>\n" + "    <category title=\"icons\"/>\n"
  const DrawableTail: string := "</resources>\n"

  function DrawableItem(r: Record): (block: string)
  {
    "    <item drawable=\"" + r.iconName + "\"/>\n"
  }

  function Drawable(recs: seq<Record>): (text: string)
  {
    DrawableHead + Join(recs, DrawableItem) + DrawableTail
  }

  method WriteDrawable(recs: seq<Record>) returns (text: string)
    ensures text == Drawable(recs)
  {
    text := "<?xml version=\"1.0\" ?>\n";
    text := text + "<resources>\n";
    text := text + "    <version>1</version>\n";
    text := text + "    <category title=\"icons\"/>\n";
    text := WriteRows(text, recs, DrawableItem);
    text := text + "</resources>\n";
  }

  // ---------------------------------------------------------------- icon_pack.xml

  /** The built-in icon-pack head, used when `templates/icon_pack_template.xml` is missing. */
  const DefaultIconPackTemplate: string :=
    "<?xml version=\"1.0\" encoding=\"utf-8\"?><!--suppress CheckTagEmptyBody -->\n"
    + "<resources xmlns:tools=\"http://schemas.android.com/tools\" tools:ignore=\"ExtraTranslation\">\n"
    + "\n"
    + "    <string-array name=\"icons_preview\">\n"
    + "        <item>dialer</item>\n"
    + "        <item>contacts</item>\n"
    + "        <item>messaging</item>\n"
    + "        <item>fossify_camera</item>\n"
    + "        <item>breezy_weather</item>\n"
    + "        <item>fossify_gallery</item>\n"
    + "        <item>calculator</item>\n"
    + "        <item>pyroscape</item>\n"
    + "        <item>settings</item>\n"
    + "    </string-array>\n"
    + "\n"
    + "    <string-array name=\"icon_filters\">\n"
    + "        <item>all</item>\n"
    + "    </string-array>\n"
    + "\n"
    + "    <!-- The following content is automatically generated, please do not modify. -->\n"

  const IconPackOpen: string := "    <string-array name=\"all\">\n"
  const IconPackTail: string := "    </string-array>\n" + "</resources>"

  function IconPackItem(r: Record): (block: string)
  {
    "        <item>" + r.iconName + "</item>\n"
  }

  function IconPack(recs: seq<Record>, template: Option<string>): (text: string)
  {
    TemplateOr(template, DefaultIconPackTemplate) + IconPackOpen + Join(recs, IconPackItem) + IconPackTail
  }

  /**
   * `icon_pack.xml` opens with the template file's whole content when the
   * file exists, and with the built-in head when it does not.
   */
  lemma IconPackStartsWithHead(recs: seq<Record>, template: Option<string>)
    ensures template.Some? ==> IconPack(recs, template)[..|template.value|] == template.value
    ensures template.None? ==> IconPack(recs, template)[..|DefaultIconPackTemplate|] == DefaultIconPackTemplate
  {
    StartsWithThree(TemplateOr(template, DefaultIconPackTemplate), IconPackOpen, Join(recs, IconPackItem), IconPackTail);
  }

  /** A missing template file (`template == None`) falls back to the built-in head. */
  method WriteIconPack(recs: seq<Record>, template: Option<string>) returns (text: string)
    ensures text == IconPack(recs, template)
  {
    var head;
    if template.Some? {
      head := template.value;
    } else {
      head := DefaultIconPackTemplate;
    }
    text := head;
    text := text + "    <string-array name=\"all\">\n";
    text := WriteRows(text, recs, IconPackItem);
    text := text + "    </string-array>\n";
    text := text + "</resources>";
  }

  // ---------------------------------------------------------------- theme_resources.xml

  /** The built-in theme head, used when `templates/theme_resources_template.xml` is missing. */
  const DefaultThemeTemplate: string :=
    "<?xml version=\"1.0\" encoding=\"UTF-8\"?>\n"
    + "<Theme version=\"1\">\n"
    + "    <Label value=\"Blueprint\" />\n"
    + "    <Wallpaper image=\"wallpaper_01\" />\n"
    + "    <LockScreenWallpaper image=\"wallpaper_02\" />\n"
    + "    <ThemePreview image=\"preview1\" />\n"
    + "    <ThemePreviewWork image=\"preview1\" />\n"
    + "    <ThemePreviewMenu image=\"preview1\" />\n"
    + "    <DockMenuAppIcon selector=\"drawer\" />\n"
    + "\n"
    + "    <!-- The following content is automatically generated, please do not modify. -->\n"

  const ThemeTail: string := "</Theme>"

  function ThemeItem(r: Record): (block: string)
  {
    "    <AppIcon name=\"" + r.packageName + "/" + r.launcherActivity + "\" image=\"" + r.iconName + "\"/>\n"
  }

  function ThemeResources(recs: seq<Record>, template: Option<string>): (text: string)
  {
    TemplateOr(template, DefaultThemeTemplate) + Join(recs, ThemeItem) + ThemeTail
  }

  /**
   * `theme_resources.xml` opens with the template file's whole content when
   * the file exists, and with the built-in head when it does not.
   */
  lemma ThemeResourcesStartsWithHead(recs: seq<Record>, template: Option<string>)
    ensures template.Some? ==> ThemeResources(recs, template)[..|template.value|] == template.value
    ensures template.None? ==> ThemeResources(recs, template)[..|DefaultThemeTemplate|] == DefaultThemeTemplate
  {
    StartsWith(TemplateOr(template, DefaultThemeTemplate), Join(recs, ThemeItem), ThemeTail);
  }

  /** A missing template file (`template == None`) falls back to the built-in head. */
  method WriteThemeResources(recs: seq<Record>, template: Option<string>) returns (text: string)
    ensures text == ThemeResources(recs, template)
  {
    var head;
    if template.Some? {
      head := template.value;
    } else {
      head := DefaultThemeTemplate;
    }
    text := head;
    text := WriteRows(text, recs, ThemeItem);
    text := text + "</Theme>";
  }

  // ---------------------------------------------------------------- where each record's block stands

  /**
   * In any artifact built as head, blocks and tail, the exact block of
   * record `i` occupies the text right after the head and the blocks of the
   * records before it.
   */
  lemma BlockInText(head: string, recs: seq<Record>, item: Record -> string, tail: string, i: nat)
    requires i < |recs|
    ensures var text, at := head + Join(recs, item) + tail, |head| + |Join(recs[..i], item)|;
            at + |item(recs[i])| <= |text| && text[at .. at + |item(recs[i])|] == item(recs[i])
  {
    var before, block, after := head + Join(recs[..i], item), item(recs[i]), Join(recs[i + 1..], item) + tail;
    BlockAt(recs, item, i);
    assert head + Join(recs, item) + tail == before + block + after;
    assert (before + block + after)[|before| .. |before| + |block|] == block;
  }

  /**
   * Every record's component `package/activity` is paired, in one block,
   * with its icon name: the appfilter text holds record `i`'s exact block
   * after the blocks of the records before it.
   */
  lemma AppfilterBlockOfEachRecord(recs: seq<Record>, i: nat)
    requires i < |recs|
    ensures var text, at := Appfilter(recs), |AppfilterHead| + |Join(recs[..i], AppfilterItem)|;
            at + |AppfilterItem(recs[i])| <= |text|
            && text[at .. at + |AppfilterItem(recs[i])|]
               == "    <item\n"
                  + "        component=\"ComponentInfo{" + recs[i].packageName + "/" + recs[i].launcherActivity + "}\"\n"
                  + "        drawable=\"" + recs[i].iconName + "\" />\n"
                  + "\t\n"
  {
    BlockInText(AppfilterHead, recs, AppfilterItem, AppfilterTail, i);
  }
}
