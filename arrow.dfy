/**
 * The two animated arrows beside the per-territory section. Each is an icon
 * whose id ends with its side, in a container offset on that same side; the
 * icon starts hidden and is shown as soon as some territory is selected.
 * The id prefix `ARROW` comes from dataviz_app/id.py, which is not part of
 * this model, so it is a parameter here.
 */
module Arrow {
  import opened Selection
  import opened Projection

  /** A style dictionary of the component. */
  type Style = map<string, string>

  const HiddenStyle: Style := map["visibility" := "hidden"]

  /** How far the container sits from its side. */
  const ContainerOffset := "50px"

  /** The arrow component: its icon's id and style, and its container's style. */
  datatype AnimatedArrow = AnimatedArrow(iconId: string, iconStyle: Style, containerStyle: Style)

  /** `"right" if right else "left"`. */
  function Position(right: bool): string
  {
    if right then "right" else "left"
  }

  /** `f"{id.ARROW}_{position}"`. */
  function ArrowId(arrowPrefix: string, right: bool): (r: string)
    ensures |r| > |arrowPrefix| + 1
    ensures r[..|arrowPrefix| + 1] == arrowPrefix + "_"
    ensures r[|arrowPrefix| + 1..] == Position(right)
  {
    arrowPrefix + "_" + Position(right)
  }

  /** The right and the left arrow never share an id. */
  lemma ArrowIdsDiffer(arrowPrefix: string)
    ensures ArrowId(arrowPrefix, true) != ArrowId(arrowPrefix, false)
  {
    assert |ArrowId(arrowPrefix, true)| != |ArrowId(arrowPrefix, false)|;
  }

  /**
   * `animated_arrow(right)`: a hidden icon under the id `show_arrow` writes
   * to, whose id ends with the side the container is offset on.
   */
  function MakeArrow(arrowPrefix: string, right: bool): (r: AnimatedArrow)
    ensures r.iconId == ArrowId(arrowPrefix, right)
    ensures r.iconStyle == HiddenStyle
    ensures r.containerStyle == map[Position(right) := ContainerOffset]
    ensures r.containerStyle.Keys == {Position(right)}
    ensures r.iconId[|arrowPrefix| + 1..] in r.containerStyle
  {
    AnimatedArrow(ArrowId(arrowPrefix, right), HiddenStyle, map[Position(right) := ContainerOffset])
  }

  /** The two arrows are distinct icons, offset on opposite sides. */
  lemma ArrowsApart(arrowPrefix: string)
    ensures MakeArrow(arrowPrefix, true).iconId != MakeArrow(arrowPrefix, false).iconId
    ensures MakeArrow(arrowPrefix, true).containerStyle.Keys !! MakeArrow(arrowPrefix, false).containerStyle.Keys
  {
    ArrowIdsDiffer(arrowPrefix);
  }

  /** `show_arrow(data)`: hidden with nothing selected, the empty style otherwise. */
  function ShowArrow(s: Store): (r: Style)
    ensures r == HiddenStyle <==> !AnySelected(s)
    ensures r == map[] <==> AnySelected(s)
  {
    assert "visibility" in HiddenStyle;
    if !AnySelected(s) then HiddenStyle else map[]
  }
}
