/** The article shape of the NewsNuggets mobile app and the mapping from a
    record of the news API (app/NewsNuggets/src/types/news.ts). */
module NuggetsArticle {
  import opened Wrappers

  /** `NewsArticle`: nine fields; `imageUrl` is optional and `category` is
      any string (`NewsCategory = string`). */
  datatype Article = Article(
    id: string,
    title: string,
    summary: string,
    source: string,
    category: string,
    publishedAt: string,
    imageUrl: Option<string>,
    content: string,
    description: string)

  /** A record as the API returns it; `image_url` may be missing or null. */
  datatype ApiRecord = ApiRecord(
    article_id: string,
    title: string,
    description: string,
    content: string,
    image_url: Option<string>,
    summary: string,
    category: string,
    source: string,
    publishedAt: string)

  /** `copyToNewsArticle`: the id is the record's `article_id`, the image URL
      is dropped exactly when it is falsy (missing, null or empty), and every
      other field is copied unchanged. */
  function CopyToNewsArticle(data: ApiRecord): (a: Article)
    ensures a.id == data.article_id
    ensures a.imageUrl.None? <==> data.image_url.None? || data.image_url.value == ""
    ensures a.imageUrl.Some? ==> a.imageUrl == data.image_url
    ensures a.title == data.title && a.description == data.description && a.content == data.content
    ensures a.summary == data.summary && a.category == data.category
    ensures a.source == data.source && a.publishedAt == data.publishedAt
  {
    Article(
      id := data.article_id,
      title := data.title,
      summary := data.summary,
      source := data.source,
      category := data.category,
      publishedAt := data.publishedAt,
      imageUrl := if data.image_url.Some? && data.image_url.value != "" then data.image_url else None,
      content := data.content,
      description := data.description)
  }

  /** The record an article came from, when its image URL is not empty. */
  function ToApiRecord(a: Article): ApiRecord {
    ApiRecord(a.id, a.title, a.description, a.content, a.imageUrl, a.summary, a.category, a.source, a.publishedAt)
  }

  /** The mapping loses nothing but the difference between a missing and an
      empty image URL: it is undone by `ToApiRecord` on every article it can
      produce, and on every record whose image URL is not the empty string. */
  lemma CopyToNewsArticleRoundTrip(a: Article, data: ApiRecord)
    ensures a.imageUrl != Some("") ==> CopyToNewsArticle(ToApiRecord(a)) == a
    ensures data.image_url != Some("") ==> ToApiRecord(CopyToNewsArticle(data)) == data
    ensures CopyToNewsArticle(data).imageUrl != Some("")
  {
  }
}
